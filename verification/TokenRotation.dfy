/**
 Rotation of refresh tokens over a denylist whose entries expire.

 `exp` and `jti` are the claims of sections 4.1.4 and 4.1.7 of RFC 7519.  Time is a real number of
 seconds; `exp` and the denylist's time to live are whole seconds, as int(time.time()) makes them.
 A call reads the clock several times, and the clock may move between the readings.
 */
module TokenRotation {
  import opened Prelude

  /** `family`: the login a refresh token descends from.  Access tokens and tokens of old releases have no jti. */
  datatype Token = Token(refresh: bool, jti: Option<nat>, exp: int, family: nat)

  /** The denylist maps a jti to the moment its entry expires; `used` and `families` are what has been handed out. */
  datatype State = State(issued: set<Token>, denylist: map<nat, real>, clock: real, exchanged: seq<nat>,
                         nextJti: nat, nextFamily: nat)

  function Floor(t: real): int {
    t.Floor
  }

  /** verify_token: signed by this server and not yet expired. */
  predicate Verifies(s: State, k: Token, t: real) {
    k in s.issued && t < k.exp as real
  }

  predicate Denied(denylist: map<nat, real>, jti: Option<nat>, t: real) {
    jti.Some? && jti.value in denylist && t < denylist[jti.value]
  }

  /** is_jti_denied: a lookup that fails finds nothing. */
  predicate Found(denylist: map<nat, real>, jti: Option<nat>, t: Times) {
    t.asked && Denied(denylist, jti, t.check)
  }

  /** deny_jti: SET with a time to live of exp - int(now), reading the clock at `read` and writing at `write`. */
  function Deny(denylist: map<nat, real>, jti: nat, exp: int, read: real, write: real): map<nat, real> {
    var ttl := exp - Floor(read);
    if ttl <= 0 then denylist else denylist[jti := write + ttl as real]
  }

  /** expires_delta of the new token; a zero delta is falsy in Python and falls back to 7 days. */
  function Lifetime(days: int): int {
    if days == 0 then 7 * 86400 else days * 86400
  }

  /**
   The clock readings of one call, in the order the code takes them, and how the denylist fares in it:
   `asked` if its lookup is answered, `wrote` if its write goes through.  Both fail open.
   */
  datatype Times = Times(verify: real, check: real, guard: real, read: real, write: real, issue: real,
                         asked: bool, wrote: bool)

  predicate Ordered(from: real, t: Times) {
    from <= t.verify <= t.check <= t.guard <= t.read <= t.write <= t.issue
  }

  datatype Answer = Refused | LoggedOut | Issued(token: Token)

  function NewToken(s: State, family: nat, t: real, days: int): Token {
    Token(true, Some(s.nextJti), Floor(t + Lifetime(days) as real), family)
  }

  function Issue(s: State, k: Token, t: real): State {
    s.(issued := s.issued + {k}, clock := t, nextJti := s.nextJti + 1, nextFamily := Max(s.nextFamily, k.family + 1))
  }

  /** POST /auth/login with good credentials. */
  function Login(s: State, t: real, days: int): (State, Answer) {
    var k := NewToken(s, s.nextFamily, t, days);
    (Issue(s, k, t), Issued(k))
  }

  /** POST /auth/refresh with cookie `k`. */
  function Refresh(s: State, k: Token, t: Times, days: int): (State, Answer) {
    if !Verifies(s, k, t.verify) || !k.refresh || Found(s.denylist, k.jti, t) then
      (s.(clock := t.issue), Refused)
    else
      var denied := if k.jti.Some? && k.exp - Floor(t.guard) > 0 && t.wrote
                    then s.(denylist := Deny(s.denylist, k.jti.value, k.exp, t.read, t.write)) else s;
      var next := NewToken(s, if k.jti.Some? then k.family else s.nextFamily, t.issue, days);
      (Issue(denied, next, t.issue).(exchanged := s.exchanged + if k.jti.Some? then [k.jti.value] else []),
       Issued(next))
  }

  /** POST /auth/logout with cookie `k`; the denylist is not consulted. */
  function Logout(s: State, k: Token, t: Times): (State, Answer) {
    var s1 := s.(clock := t.issue);
    if Verifies(s, k, t.verify) && k.jti.Some? && t.wrote then
      (s1.(denylist := Deny(s.denylist, k.jti.value, k.exp, t.read, t.write)), LoggedOut)
    else
      (s1, LoggedOut)
  }

  /** The endpoints over one server's state. */
  class AuthServer {
    var issued: set<Token>
    var denylist: map<nat, real>
    var clock: real
    ghost var exchanged: seq<nat>
    var nextJti: nat
    var nextFamily: nat

    ghost function Now(): State
      reads this
    {
      State(issued, denylist, clock, exchanged, nextJti, nextFamily)
    }

    constructor (legacy: set<Token>)
      ensures Now() == Started(legacy)
    {
      issued, denylist, clock, exchanged, nextJti, nextFamily := legacy, map[], 0.0, [], 0, 0;
    }

    method IssueToken(k: Token, t: real)
      modifies this
      ensures Now() == Issue(old(Now()), k, t)
    {
      issued := issued + {k};
      clock := t;
      nextJti := nextJti + 1;
      nextFamily := Max(nextFamily, k.family + 1);
    }

    method DoLogin(t: real, days: int) returns (a: Answer)
      modifies this
      ensures (Now(), a) == Login(old(Now()), t, days)
    {
      var k := Token(true, Some(nextJti), Floor(t + Lifetime(days) as real), nextFamily);
      IssueToken(k, t);
      return Issued(k);
    }

    method DoRefresh(k: Token, t: Times, days: int) returns (a: Answer)
      modifies this
      ensures (Now(), a) == Refresh(old(Now()), k, t, days)
    {
      if !(k in issued && t.verify < k.exp as real) || !k.refresh {
        clock := t.issue;
        return Refused;
      }
      if Found(denylist, k.jti, t) {
        clock := t.issue;
        return Refused;
      }
      var family := nextFamily;
      if k.jti.Some? {
        family := k.family;
        exchanged := exchanged + [k.jti.value];
        if k.exp - Floor(t.guard) > 0 && t.wrote {
          denylist := Deny(denylist, k.jti.value, k.exp, t.read, t.write);
        }
      }
      var next := Token(true, Some(nextJti), Floor(t.issue + Lifetime(days) as real), family);
      IssueToken(next, t.issue);
      assert old(exchanged) + [] == old(exchanged);
      return Issued(next);
    }

    method DoLogout(k: Token, t: Times) returns (a: Answer)
      modifies this
      ensures (Now(), a) == Logout(old(Now()), k, t)
    {
      clock := t.issue;
      if k in issued && t.verify < k.exp as real && k.jti.Some? && t.wrote {
        denylist := Deny(denylist, k.jti.value, k.exp, t.read, t.write);
      }
      return LoggedOut;
    }
  }

  /** At the start only tokens of older releases exist, without a jti. */
  function Started(legacy: set<Token>): State {
    State(legacy, map[], 0.0, [], 0, 0)
  }

  // ----- which tokens are still good

  /** What /auth/refresh accepts at one instant. */
  predicate Accepts(s: State, k: Token, t: real) {
    Verifies(s, k, t) && k.refresh && !Denied(s.denylist, k.jti, t)
  }

  /** What the storage endpoint accepts as a cookie at one instant; it does not ask for the refresh type. */
  predicate StorageAccepts(s: State, k: Token, t: real) {
    Verifies(s, k, t) && !Denied(s.denylist, k.jti, t)
  }

  /** Expired, or denied until it expires: no instant from `t` on can accept it. */
  predicate Dead(s: State, k: Token, t: real) {
    k.exp as real <= t || (k.jti.Some? && k.jti.value in s.denylist && k.exp as real <= s.denylist[k.jti.value])
  }

  ghost predicate Known(issued: set<Token>, jti: nat) {
    exists k :: k in issued && k.jti == Some(jti)
  }

  predicate Newest(s: State, k: Token) {
    k in s.issued && k.jti.Some? && k.jti.value !in s.exchanged
  }

  ghost predicate Consistent(s: State) {
    // a jti belongs to one token, is below the counter, and so is its family
    && (forall k :: k in s.issued && k.jti.Some? ==> k.refresh && k.jti.value < s.nextJti && k.family < s.nextFamily)
    && (forall k, l :: k in s.issued && l in s.issued && k.jti.Some? && k.jti == l.jti ==> k == l)
    // exchanged tokens were issued and are dead
    && (forall j :: j in s.exchanged ==> Known(s.issued, j))
    && (forall k :: k in s.issued && k.jti.Some? && k.jti.value in s.exchanged ==> Dead(s, k, s.clock))
    // a family is a chain: all but the newest of its tokens have been exchanged
    && (forall k, l :: Newest(s, k) && Newest(s, l) && k.family == l.family ==> k == l)
  }

  lemma StartedConsistent(legacy: set<Token>)
    requires forall k :: k in legacy ==> k.jti.None?
    ensures Consistent(Started(legacy))
  {
  }

  /** The arithmetic of the time to live: an entry written for a token that verifies outlives the token. */
  lemma DenyCoversExp(denylist: map<nat, real>, jti: nat, exp: int, read: real, write: real)
    requires read <= write
    ensures var after := Deny(denylist, jti, exp, read, write);
            && (exp as real <= write || (jti in after && exp as real <= after[jti]))
            && (read < exp as real ==> jti in after)
            // it goes less than a second, and the delay of the write, after the token; no other entry is touched
            && (jti in after && (jti in denylist ==> after[jti] != denylist[jti]) ==>
                  after[jti] - exp as real <= 1.0 + (write - read))
            && (exp as real <= read ==> after == denylist)
            // the time to live is counted from the write
            && (read < exp as real ==> write + (exp as real - read) <= after[jti])
            && after - {jti} == denylist - {jti}
  {
    assert Floor(read) as real <= read < Floor(read) as real + 1.0;
  }

  // ----- what one call answers

  /**
   A refresh call at one instant, with an answered lookup, issues exactly to the tokens that are accepted.
   Whatever the readings and the denylist, a refused call changes nothing but the clock, and a token that is
   not a refresh token is refused.
   */
  lemma RefreshIssuesExactly(s: State, k: Token, t: Times, days: int)
    ensures t.asked && t.check == t.verify ==> (Refresh(s, k, t, days).1.Issued? <==> Accepts(s, k, t.verify))
    ensures Refresh(s, k, t, days).1 != Refused <==> Refresh(s, k, t, days).1.Issued?
    ensures Refresh(s, k, t, days).1 == Refused ==> Refresh(s, k, t, days).0 == s.(clock := t.issue)
    ensures !k.refresh || k !in s.issued || k.exp as real <= t.verify ==> Refresh(s, k, t, days).1 == Refused
  {
  }

  /** A new token is a refresh token that nobody has had, good for the configured number of days; 0 means 7. */
  ghost predicate IsNew(s: State, k: Token, t: real, days: int) {
    && k.refresh && k.jti.Some? && !Known(s.issued, k.jti.value)
    && var life := if days == 0 then 604800 else 86400 * days;
       t + life as real - 1.0 < k.exp as real <= t + life as real
  }

  /** What logins and refresh calls issue, and to which family: a login founds one. */
  lemma IssuedIsNew(s: State, k: Token, t: Times, days: int)
    requires Consistent(s)
    ensures var (after, answer) := Login(s, t.issue, days);
            && answer.Issued? && after.issued == s.issued + {answer.token} && IsNew(s, answer.token, t.issue, days)
            && (forall l :: l in s.issued && l.jti.Some? ==> l.family != answer.token.family)
            && after.denylist == s.denylist && after.exchanged == s.exchanged
    ensures var (after, answer) := Refresh(s, k, t, days);
            answer.Issued? ==>
              && after.issued == s.issued + {answer.token} && IsNew(s, answer.token, t.issue, days)
              && (k.jti.Some? ==> answer.token.family == k.family && after.exchanged == s.exchanged + [k.jti.value])
              && (k.jti.None? ==> after.denylist == s.denylist && after.exchanged == s.exchanged
                                  && forall l :: l in s.issued && l.jti.Some? ==> l.family != answer.token.family)
  {
    NewTokenIsNew(s, s.nextFamily, t.issue, days);
    NewTokenIsNew(s, k.family, t.issue, days);
    assert s.exchanged + [] == s.exchanged;
  }

  lemma NewTokenIsNew(s: State, family: nat, t: real, days: int)
    requires Consistent(s)
    ensures IsNew(s, NewToken(s, family, t, days), t, days)
  {
    var end := t + Lifetime(days) as real;
    assert Floor(end) as real <= end < Floor(end) as real + 1.0;
  }

  /**
   A recorded logout denies exactly the jti of a token that verifies, until its `exp`, even one that is
   denied already; the answer is the same for every cookie, and nothing else changes.
   */
  lemma LogoutDenies(s: State, k: Token, t: Times)
    requires Ordered(s.clock, t)
    ensures var (after, answer) := Logout(s, k, t);
            && answer == LoggedOut
            && after == s.(clock := t.issue, denylist := after.denylist)
            && (if k in s.issued && t.verify < k.exp as real && k.jti.Some? && t.wrote
                then Dead(after, k, t.write) && after.denylist - {k.jti.value} == s.denylist - {k.jti.value}
                else after.denylist == s.denylist)
  {
    if k.jti.Some? {
      DenyCoversExp(s.denylist, k.jti.value, k.exp, t.read, t.write);
    }
  }

  // ----- steps and runs

  datatype Step =
    | LoginStep(at: real, days: int)
    | RefreshStep(token: Token, times: Times, days: int)
    | LogoutStep(token: Token, times: Times)
    | Tick(at: real)          // time passes
    | Sweep(gone: set<nat>)   // Redis drops entries whose time has come

  predicate Valid(s: State, step: Step) {
    match step
    case LoginStep(at, _) => s.clock <= at
    case RefreshStep(_, t, _) => Ordered(s.clock, t)
    case LogoutStep(_, t) => Ordered(s.clock, t)
    case Tick(at) => s.clock <= at
    case Sweep(gone) => forall j :: j in gone && j in s.denylist ==> s.denylist[j] <= s.clock
  }

  function Take(s: State, step: Step): (State, Answer) {
    match step
    case LoginStep(at, days) => Login(s, at, days)
    case RefreshStep(k, t, days) => Refresh(s, k, t, days)
    case LogoutStep(k, t) => Logout(s, k, t)
    case Tick(at) => (s.(clock := at), Refused)
    case Sweep(gone) => (s.(denylist := s.denylist - gone), Refused)
  }

  /** The call verifies a token that has been exchanged, and finds no denylist entry for it. */
  predicate Readmits(s: State, step: Step) {
    && step.RefreshStep? && step.token in s.issued && step.token.jti.Some? && step.token.jti.value in s.exchanged
    && step.token.refresh && step.times.verify < step.token.exp as real
    && !Found(s.denylist, step.token.jti, step.times)
  }

  /** The call's question to the denylist is answered, and before the token it has verified expires. */
  predicate Prompt(step: Step) {
    step.RefreshStep? ==> step.times.verify < step.token.exp as real ==>
      step.times.asked && step.times.check < step.token.exp as real
  }

  /** If the call exchanges a token, the denylist hears of it. */
  predicate Recorded(step: Step) {
    step.RefreshStep? ==> step.times.wrote
  }

  predicate AllRecorded(steps: seq<Step>) {
    forall i :: 0 <= i < |steps| ==> Recorded(steps[i])
  }

  predicate AllPrompt(steps: seq<Step>) {
    forall i :: 0 <= i < |steps| ==> Prompt(steps[i])
  }

  lemma DeadStaysDead(s: State, step: Step, k: Token)
    requires Consistent(s) && Valid(s, step) && k in s.issued && Dead(s, k, s.clock)
    ensures Dead(Take(s, step).0, k, Take(s, step).0.clock)
  {
    match step
    case RefreshStep(l, t, _) =>
      if l.jti.Some? {
        DenyCoversExp(s.denylist, l.jti.value, l.exp, t.read, t.write);
      }
    case LogoutStep(l, t) =>
      if l.jti.Some? {
        DenyCoversExp(s.denylist, l.jti.value, l.exp, t.read, t.write);
      }
    case _ =>
  }

  /** An exchanged token is dead, whether or not its last second allowed an entry to be written. */
  lemma ExchangeKills(s: State, k: Token, t: Times, days: int)
    requires Consistent(s) && Ordered(s.clock, t) && k.jti.Some? && t.wrote
    requires Refresh(s, k, t, days).1.Issued?
    ensures var s1 := Refresh(s, k, t, days).0; Dead(s1, k, s1.clock)
  {
    DenyCoversExp(s.denylist, k.jti.value, k.exp, t.read, t.write);
    assert Floor(t.guard) as real <= t.guard;
  }

  /**
   The exact gap: a call readmits a token whose exchange was recorded iff its lookup fails, or the clock
   runs past the entry between verifying and looking up.
   */
  lemma ReadmittedExactly(s: State, k: Token, t: Times, days: int)
    requires Consistent(s) && Ordered(s.clock, t)
    requires k in s.issued && k.jti.Some? && k.jti.value in s.exchanged
    ensures Refresh(s, k, t, days).1.Issued? <==>
            t.verify < k.exp as real && (!t.asked || s.denylist[k.jti.value] <= t.check)
    ensures Refresh(s, k, t, days).1.Issued? && t.asked ==> k.exp as real <= t.check
  {
  }

  lemma IssueKeeps(s: State, k: Token, t: real)
    requires Consistent(s) && s.clock <= t
    requires k.refresh && k.jti == Some(s.nextJti)
    requires forall l :: Newest(s, l) ==> l.family != k.family
    ensures Consistent(Issue(s, k, t))
  {
    var s1 := Issue(s, k, t);
    forall j | j in s1.exchanged
      ensures Known(s1.issued, j)
    {
      var l :| l in s.issued && l.jti == Some(j);
      assert l in s1.issued;
    }
    assert k.jti.value !in s.exchanged;
  }

  /** A step that issues and exchanges nothing only has to keep the dead tokens dead. */
  lemma NothingIssuedKeeps(s: State, s1: State)
    requires Consistent(s)
    requires s1 == s.(denylist := s1.denylist, clock := s1.clock)
    requires forall k :: k in s.issued && Dead(s, k, s.clock) ==> Dead(s1, k, s1.clock)
    ensures Consistent(s1)
  {
    assert forall k :: Newest(s1, k) ==> Newest(s, k);
  }

  /** The state between the exchange of a token and the issue of its successor. */
  ghost function Exchanged(s: State, k: Token, t: Times, days: int): State
    requires k.jti.Some?
  {
    s.(denylist := Refresh(s, k, t, days).0.denylist, clock := t.issue, exchanged := s.exchanged + [k.jti.value])
  }

  lemma ExchangedConsistent(s: State, k: Token, t: Times, days: int)
    requires Consistent(s) && Ordered(s.clock, t) && Refresh(s, k, t, days).1.Issued? && k.jti.Some? && t.wrote
    ensures Consistent(Exchanged(s, k, t, days))
  {
    var mid := Exchanged(s, k, t, days);
    ExchangeKills(s, k, t, days);
    forall l | l in s.issued && l.jti.Some? && l.jti.value in mid.exchanged
      ensures Dead(mid, l, mid.clock)
    {
      if l != k {
        assert l.jti.value in s.exchanged;
        DeadStaysDead(s, RefreshStep(k, t, days), l);
      }
    }
    assert forall l :: Newest(mid, l) ==> Newest(s, l);
    assert Known(s.issued, k.jti.value);
  }

  lemma SuccessorIssued(s: State, k: Token, t: Times, days: int)
    requires k.jti.Some? && Refresh(s, k, t, days).1.Issued?
    ensures var (after, answer) := Refresh(s, k, t, days);
            && after == Issue(Exchanged(s, k, t, days), answer.token, t.issue)
            && answer.token.refresh && answer.token.jti == Some(s.nextJti) && answer.token.family == k.family
  {
  }

  lemma ExchangeKeeps(s: State, k: Token, t: Times, days: int)
    requires Consistent(s) && Ordered(s.clock, t) && Refresh(s, k, t, days).1.Issued? && k.jti.Some? && t.wrote
    requires k.jti.value !in s.exchanged
    ensures Consistent(Refresh(s, k, t, days).0)
  {
    var mid := Exchanged(s, k, t, days);
    ExchangedConsistent(s, k, t, days);
    assert Newest(s, k);
    assert mid.exchanged[|s.exchanged|] == k.jti.value;
    forall l | Newest(mid, l)
      ensures l.family != k.family
    {
      assert Newest(s, l) && l != k;
    }
    SuccessorIssued(s, k, t, days);
    IssueKeeps(mid, Refresh(s, k, t, days).1.token, t.issue);
  }

  lemma StepConsistent(s: State, step: Step)
    requires Consistent(s) && Valid(s, step) && !Readmits(s, step) && Recorded(step)
    ensures Consistent(Take(s, step).0)
  {
    var s1 := Take(s, step).0;
    forall k | k in s.issued && Dead(s, k, s.clock)
      ensures Dead(s1, k, s1.clock)
    {
      DeadStaysDead(s, step, k);
    }
    if step.LoginStep? {
      IssueKeeps(s, Take(s, step).1.token, step.at);
    } else if step.RefreshStep? && Take(s, step).1.Issued? {
      if step.token.jti.Some? {
        ExchangeKeeps(s, step.token, step.times, step.days);
      } else {
        assert s.exchanged + [] == s.exchanged;
        IssueKeeps(s, Take(s, step).1.token, step.times.issue);
      }
    } else {
      NothingIssuedKeeps(s, s1);
    }
  }

  predicate ValidRun(s: State, steps: seq<Step>)
    decreases |steps|
  {
    steps == [] || (Valid(s, steps[0]) && ValidRun(Take(s, steps[0]).0, steps[1..]))
  }

  function Run(s: State, steps: seq<Step>): State
    decreases |steps|
  {
    if steps == [] then s else Run(Take(s, steps[0]).0, steps[1..])
  }

  ghost predicate NoRepeats(s: seq<nat>) {
    forall i, j :: 0 <= i < j < |s| ==> s[i] != s[j]
  }

  /** No call of the run readmits an exchanged token. */
  predicate NoReadmission(s: State, steps: seq<Step>)
    decreases |steps|
  {
    steps == [] || (!Readmits(s, steps[0]) && NoReadmission(Take(s, steps[0]).0, steps[1..]))
  }

  lemma PromptReadmitsNothing(s: State, step: Step)
    requires Consistent(s) && Valid(s, step) && Prompt(step)
    ensures !Readmits(s, step)
  {
    if Readmits(s, step) {
      ReadmittedExactly(s, step.token, step.times, step.days);
      assert false;
    }
  }

  /** It is enough that the denylist works and each refresh call asks it before `exp`, as one at an instant does. */
  lemma {:induction false} PromptRunReadmitsNothing(s: State, steps: seq<Step>)
    requires Consistent(s) && ValidRun(s, steps) && AllPrompt(steps) && AllRecorded(steps)
    ensures NoReadmission(s, steps)
    decreases |steps|
  {
    if steps != [] {
      assert Prompt(steps[0]) && Recorded(steps[0]);
      PromptReadmitsNothing(s, steps[0]);
      StepConsistent(s, steps[0]);
      PromptRunReadmitsNothing(Take(s, steps[0]).0, steps[1..]);
    }
  }

  lemma {:induction false} ExchangedGrows(s: State, steps: seq<Step>)
    ensures s.exchanged <= Run(s, steps).exchanged
    decreases |steps|
  {
    if steps != [] {
      ExchangedGrows(Take(s, steps[0]).0, steps[1..]);
    }
  }

  /** A step adds at most its token's jti to the exchanged ones, and a repeated one exactly if it readmits. */
  lemma StepExchanges(s: State, step: Step)
    requires NoRepeats(s.exchanged)
    ensures NoRepeats(Take(s, step).0.exchanged) <==> !Readmits(s, step)
  {
    var after := Take(s, step).0.exchanged;
    if Readmits(s, step) {
      var i :| 0 <= i < |s.exchanged| && s.exchanged[i] == step.token.jti.value;
      assert after[i] == after[|s.exchanged|];
    }
  }

  /** In any run, however the denylist fares, each jti is exchanged once at most iff no exchanged one is readmitted. */
  lemma {:induction false} ExchangedOnceExactly(s: State, steps: seq<Step>)
    requires NoRepeats(s.exchanged)
    ensures NoRepeats(Run(s, steps).exchanged) <==> NoReadmission(s, steps)
    decreases |steps|
  {
    if steps != [] {
      var s1 := Take(s, steps[0]).0;
      StepExchanges(s, steps[0]);
      if Readmits(s, steps[0]) {
        ExchangedGrows(s1, steps[1..]);
      } else {
        ExchangedOnceExactly(s1, steps[1..]);
      }
    }
  }

  /** From the start, through any expiry of entries, no jti is exchanged twice if calls are prompt and recorded. */
  lemma ExchangedAtMostOnce(legacy: set<Token>, steps: seq<Step>)
    requires forall m :: m in legacy ==> m.jti.None?
    requires ValidRun(Started(legacy), steps) && AllPrompt(steps) && AllRecorded(steps)
    ensures NoRepeats(Run(Started(legacy), steps).exchanged)
  {
    StartedConsistent(legacy);
    PromptRunReadmitsNothing(Started(legacy), steps);
    ExchangedOnceExactly(Started(legacy), steps);
  }

  lemma {:induction false} RunConsistent(s: State, steps: seq<Step>)
    requires Consistent(s) && ValidRun(s, steps) && NoReadmission(s, steps) && AllRecorded(steps)
    ensures Consistent(Run(s, steps)) && s.clock <= Run(s, steps).clock
    decreases |steps|
  {
    if steps != [] {
      assert Recorded(steps[0]);
      StepConsistent(s, steps[0]);
      RunConsistent(Take(s, steps[0]).0, steps[1..]);
    }
  }

  /** `s` is reached from the start by a run that readmits no token and records every exchange. */
  ghost predicate Reached(s: State, legacy: set<Token>, steps: seq<Step>) {
    && (forall m :: m in legacy ==> m.jti.None?)
    && ValidRun(Started(legacy), steps) && NoReadmission(Started(legacy), steps) && AllRecorded(steps)
    && s == Run(Started(legacy), steps)
  }

  lemma ReachedConsistent(s: State, legacy: set<Token>, steps: seq<Step>)
    requires Reached(s, legacy, steps)
    ensures Consistent(s)
  {
    StartedConsistent(legacy);
    RunConsistent(Started(legacy), steps);
  }

  /** At every instant a login family has at most one token that /auth/refresh or the storage cookie path accepts. */
  lemma OneLiveTokenPerFamily(s: State, legacy: set<Token>, steps: seq<Step>, k: Token, l: Token, t: real)
    requires Reached(s, legacy, steps) && s.clock <= t
    requires k.jti.Some? && l.jti.Some? && k.family == l.family
    requires StorageAccepts(s, k, t) && StorageAccepts(s, l, t)
    ensures k == l
  {
    ReachedConsistent(s, legacy, steps);
  }

  /** In every such run a token that has been exchanged is accepted at no later instant, by neither of the two. */
  lemma ExchangedStaysRefused(s: State, legacy: set<Token>, steps: seq<Step>, k: Token, t: real)
    requires Reached(s, legacy, steps) && s.clock <= t
    requires k.jti.Some? && k.jti.value in s.exchanged
    ensures !StorageAccepts(s, k, t) && !Accepts(s, k, t)
  {
    ReachedConsistent(s, legacy, steps);
  }

  /** Where the two part: the storage cookie path takes an access token, which the refresh endpoint refuses. */
  lemma StorageTakesAccessTokens(s: State, k: Token, t: real)
    requires k.jti.None? && !k.refresh
    ensures !Accepts(s, k, t) && (StorageAccepts(s, k, t) <==> k in s.issued && t < k.exp as real)
  {
  }

  /** The cookie path of the storage endpoint revokes in step with /auth/refresh. */
  lemma StorageParity(s: State, k: Token, t: real)
    requires Consistent(s) && k.jti.Some?
    ensures StorageAccepts(s, k, t) <==> Accepts(s, k, t)
  {
  }

  // ----- a family that has ended stays ended

  /** Every token of the family is dead. */
  ghost predicate Ended(s: State, family: nat) {
    forall k :: k in s.issued && k.jti.Some? && k.family == family ==> Dead(s, k, s.clock)
  }

  lemma StepKeepsEnded(s: State, step: Step, family: nat)
    requires Consistent(s) && Valid(s, step) && Prompt(step)
    requires family < s.nextFamily && Ended(s, family)
    ensures Ended(Take(s, step).0, family) && family < Take(s, step).0.nextFamily
  {
    var s1 := Take(s, step).0;
    forall k | k in s.issued && k.jti.Some? && k.family == family
      ensures Dead(s1, k, s1.clock)
    {
      DeadStaysDead(s, step, k);
    }
  }

  lemma {:induction false} EndedStaysEnded(s: State, steps: seq<Step>, family: nat)
    requires Consistent(s) && ValidRun(s, steps) && family < s.nextFamily && Ended(s, family)
    requires AllPrompt(steps) && AllRecorded(steps)
    ensures Ended(Run(s, steps), family)
    decreases |steps|
  {
    if steps != [] {
      assert Prompt(steps[0]) && Recorded(steps[0]);
      PromptReadmitsNothing(s, steps[0]);
      StepConsistent(s, steps[0]);
      StepKeepsEnded(s, steps[0], family);
      EndedStaysEnded(Take(s, steps[0]).0, steps[1..], family);
    }
  }

  /** Logging out with the family's unexchanged token ends the family, for every later run. */
  lemma LogoutEndsFamily(s: State, k: Token, t: Times, later: seq<Step>, l: Token, at: real)
    requires Consistent(s) && Ordered(s.clock, t) && t.wrote
    requires k in s.issued && k.jti.Some? && k.jti.value !in s.exchanged
    requires ValidRun(Logout(s, k, t).0, later) && AllPrompt(later) && AllRecorded(later)
    requires l.jti.Some? && l.family == k.family
    requires Run(Logout(s, k, t).0, later).clock <= at
    ensures var after := Run(Logout(s, k, t).0, later); !Accepts(after, l, at) && !StorageAccepts(after, l, at)
  {
    var s1 := Logout(s, k, t).0;
    StepConsistent(s, LogoutStep(k, t));
    DenyCoversExp(s.denylist, k.jti.value, k.exp, t.read, t.write);
    forall m | m in s1.issued && m.jti.Some? && m.family == k.family
      ensures Dead(s1, m, s1.clock)
    {
      if m.jti.value in s.exchanged {
        DeadStaysDead(s, LogoutStep(k, t), m);
      }
    }
    EndedStaysEnded(s1, later, k.family);
    PromptRunReadmitsNothing(s1, later);
    RunConsistent(s1, later);
    StorageParity(Run(s1, later), l, at);
  }

  // ----- outside the guarantee

  /**
   Failing open, exactly: after an exchange the old token is still accepted, by the refresh endpoint and the
   storage cookie path alike, iff the denylist missed the write and the token has not expired; unless the
   lookup failed as well and the token had been denied before.
   */
  lemma FailOpen(s: State, k: Token, t: Times, days: int, at: real)
    requires Consistent(s) && Ordered(s.clock, t) && Refresh(s, k, t, days).1.Issued? && k.jti.Some? && t.issue <= at
    ensures var after := Refresh(s, k, t, days).0;
            var open := !t.wrote && at < k.exp as real && (t.asked || !Denied(s.denylist, k.jti, at));
            (Accepts(after, k, at) <==> open) && (StorageAccepts(after, k, at) <==> open)
  {
    if t.wrote {
      ExchangeKills(s, k, t, days);
    }
  }

  /** How many of the calls verify their token before it expires. */
  function InTime(steps: seq<Step>): nat {
    if steps == [] then 0
    else
      InTime(steps[1..]) +
      if steps[0].RefreshStep? && steps[0].times.verify < steps[0].token.exp as real then 1 else 0
  }

  ghost predicate HoldsFamily(s: State, family: nat) {
    exists l :: l in s.issued && l.jti.Some? && l.family == family
  }

  lemma LegacyRefresh(s: State, k: Token, t: Times, days: int)
    requires k in s.issued && k.refresh && k.jti.None?
    ensures var (after, answer) := Refresh(s, k, t, days);
            if t.verify < k.exp as real
            then answer.Issued? && answer.token in after.issued && after.issued >= s.issued
                 && answer.token.jti.Some? && answer.token.family == s.nextFamily
                 && after.nextFamily == s.nextFamily + 1
            else after == s.(clock := t.issue) && answer.Refused?
  {
  }

  /**
   A token without a jti is exchanged as often as it is shown before it expires, whatever happened to its
   earlier exchanges, and each exchange founds a family of its own.
   */
  lemma {:induction false} LegacyTokenRotates(s: State, k: Token, steps: seq<Step>)
    requires k in s.issued && k.refresh && k.jti.None?
    requires forall i :: 0 <= i < |steps| ==> steps[i].RefreshStep? && steps[i].token == k
    ensures var after := Run(s, steps);
            && k in after.issued && after.issued >= s.issued && after.exchanged == s.exchanged
            && after.nextFamily == s.nextFamily + InTime(steps)
            && (forall f :: s.nextFamily <= f < after.nextFamily ==> HoldsFamily(after, f))
    decreases |steps|
  {
    if steps != [] {
      var s1 := Take(s, steps[0]).0;
      assert steps[0].token == k;
      LegacyRefresh(s, k, steps[0].times, steps[0].days);
      assert forall i :: 0 <= i < |steps[1..]| ==> steps[1..][i] == steps[i + 1];
      LegacyTokenRotates(s1, k, steps[1..]);
      assert s.exchanged + [] == s.exchanged;
      var after := Run(s, steps);
      forall f | s.nextFamily <= f < after.nextFamily
        ensures HoldsFamily(after, f)
      {
        if f == s.nextFamily && s1.nextFamily > s.nextFamily {
          assert Take(s, steps[0]).1.token in after.issued;
        }
      }
    }
  }

  // ----- the gap is real

  const SLOW_TOKEN := Token(true, Some(0), 86400, 0)
  const EARLY := Times(10.0, 10.0, 10.0, 10.0, 10.0, 10.0, true, true)
  const LATE := Times(86399.5, 86400.0, 86400.0, 86400.0, 86400.0, 86400.0, true, true)
  const SLOW_RUN := [LoginStep(0.0, 1), RefreshStep(SLOW_TOKEN, EARLY, 2), RefreshStep(SLOW_TOKEN, LATE, 1)]

  /** The token is issued at 0 s and exchanged at 10 s. */
  lemma SlowTokenExchanged()
    ensures var s := Refresh(Login(Started({}), 0.0, 1).0, SLOW_TOKEN, EARLY, 2).0;
            s == State({SLOW_TOKEN, Token(true, Some(1), 172810, 0)}, map[0 := 86400.0], 10.0, [0], 2, 1)
  {
    assert Floor(0.0 + 86400.0) == 86400 && Floor(10.0) == 10 && Floor(10.0 + 172800.0) == 172810;
    var s := Login(Started({}), 0.0, 1).0;
    assert s == State({SLOW_TOKEN}, map[], 0.0, [], 1, 1);
  }

  /** It is exchanged again by the slow call. */
  lemma SlowTokenReadmitted(s: State)
    requires s == State({SLOW_TOKEN, Token(true, Some(1), 172810, 0)}, map[0 := 86400.0], 10.0, [0], 2, 1)
    ensures var after := Refresh(s, SLOW_TOKEN, LATE, 1).0;
            && after.issued == s.issued + {Token(true, Some(2), 172800, 0)} && after.denylist == s.denylist
            && after.exchanged == [0, 0] && after.clock == 86400.0
  {
    assert Floor(86400.0) == 86400 && Floor(86400.0 + 86400.0) == 172800;
  }

  /**
   A token verified half a second before `exp` but looked up when its entry has gone is exchanged twice,
   and its family has two tokens that are accepted.
   */
  lemma SlowCallExchangesTwice()
    ensures ValidRun(Started({}), SLOW_RUN) && TwoLive(Run(Started({}), SLOW_RUN), 86400.0)
  {
    var s0 := Started({});
    var s1 := Login(s0, 0.0, 1).0;
    var s2 := Refresh(s1, SLOW_TOKEN, EARLY, 2).0;
    var s3 := Refresh(s2, SLOW_TOKEN, LATE, 1).0;
    SlowTokenExchanged();
    SlowTokenReadmitted(s2);
    var a, b, c := SLOW_RUN[0], SLOW_RUN[1], SLOW_RUN[2];
    RunNext(s2, c, []);
    RunNext(s1, b, [c]);
    RunNext(s0, a, [b, c]);
    assert [a] + [b, c] == SLOW_RUN && [b] + [c] == [b, c] && [c] + [] == [c];
    var l, m := Token(true, Some(1), 172810, 0), Token(true, Some(2), 172800, 0);
    assert Accepts(s3, l, 86400.0) && Accepts(s3, m, 86400.0);
  }

  lemma RunNext(s: State, step: Step, rest: seq<Step>)
    ensures ValidRun(s, [step] + rest) <==> Valid(s, step) && ValidRun(Take(s, step).0, rest)
    ensures Run(s, [step] + rest) == Run(Take(s, step).0, rest)
  {
    assert ([step] + rest)[1..] == rest;
  }

  ghost predicate TwoLive(s: State, t: real) {
    && s.exchanged == [0, 0]
    && exists k, l ::
         Accepts(s, k, t) && Accepts(s, l, t) && k != l && k.family == l.family && k.jti.Some? && l.jti.Some?
  }
}

/** ProvisioningApplicationService.synchronizeEmployeeStatus: suspend, terminate and reactivate
    events, which may arrive late, twice and in any order. */
module EmployeeLifecycle {
  import opened JavaScript

  type Id = string

  datatype Kind = Suspend | Terminate | Reactivate

  /** The event types as the service switches on them. */
  datatype EventType = Lifecycle(kind: Kind) | OtherType

  datatype EmployeeStatus = EmployeeActive | EmployeeSuspended | EmployeeTerminated | EmployeeReactivated

  datatype UserStatus = Active | Inactive | Suspended | Invited | Disabled | Archived | Locked

  datatype InvitationStatus = Pending | Sent | Accepted | Revoked | Cancelled

  /** source_version is text, and can be absent. */
  datatype EmployeeRow = EmployeeRow(status: EmployeeStatus, sourceVersion: Option<string>)

  datatype Invitation = Invitation(userId: Id, status: InvitationStatus)

  function EmployeeStatusFor(kind: Kind): EmployeeStatus {
    match kind case Suspend => EmployeeSuspended case Terminate => EmployeeTerminated case Reactivate => EmployeeReactivated
  }

  function UserStatusFor(kind: Kind): UserStatus {
    match kind case Suspend => Disabled case Terminate => Archived case Reactivate => Inactive
  }

  /** How an event leaves an employee and its user: suspended and disabled, terminated and archived, or
      reactivated and inactive until the user accepts the new invitation. */
  predicate Left(kind: Kind, employee: EmployeeStatus, user: Option<UserStatus>) {
    && (kind == Suspend ==> employee == EmployeeSuspended && (user.Some? ==> user.value == Disabled))
    && (kind == Terminate ==> employee == EmployeeTerminated && (user.Some? ==> user.value == Archived))
    && (kind == Reactivate ==> employee == EmployeeReactivated && (user.Some? ==> user.value == Inactive))
  }

  lemma StatusesLeft(kind: Kind)
    ensures Left(kind, EmployeeStatusFor(kind), Some(UserStatusFor(kind))) && Left(kind, EmployeeStatusFor(kind), None)
  {
  }

  // --- what one delivery does to one employee ---

  datatype Event = Event(kind: Kind, version: int)

  /** An employee and its user, if one refers to it. sentInvitation: the user has an invitation that was
      sent and not revoked, which keeps the unique index from admitting a new pending one. */
  datatype Person = Person(status: EmployeeStatus, sourceVersion: Option<string>, user: Option<UserStatus>, sentInvitation: bool)

  /** The stored version as it is read back; None is NaN. */
  function Stored(sourceVersion: Option<string>): Option<int> {
    if sourceVersion.None? || sourceVersion.value == "" then Some(0) else ParseInt(sourceVersion.value)
  }

  /** Not sourceVersion <= currentStoredVersion; a comparison with NaN is false. */
  predicate Newer(sourceVersion: Option<string>, version: int) {
    Stored(sourceVersion).None? || version > Stored(sourceVersion).value
  }

  /** The transaction of a newer event of this kind goes through. */
  predicate Commits(p: Person, kind: Kind) {
    p.user.Some? && kind.Reactivate? ==> !p.sentInvitation
  }

  function Outcome(p: Person, e: Event): Person {
    p.(status := EmployeeStatusFor(e.kind), sourceVersion := Some(NumberToString(e.version)),
       user := if p.user.Some? then Some(UserStatusFor(e.kind)) else None)
  }

  function Apply(p: Person, e: Event): Person {
    if Newer(p.sourceVersion, e.version) && Commits(p, e.kind) then Outcome(p, e) else p
  }

  // --- the service ---

  predicate Open(i: Invitation) {
    i.status.Pending? || i.status.Sent?
  }

  /** The unique index uq_invitations_one_pending_per_user. */
  predicate OneOpenEach(invitations: map<nat, Invitation>) {
    forall i, j :: i in invitations && j in invitations && i != j && Open(invitations[i]) && Open(invitations[j]) ==>
      invitations[i].userId != invitations[j].userId
  }

  predicate SentTo(invitations: map<nat, Invitation>, userId: Id) {
    exists i :: i in invitations && invitations[i] == Invitation(userId, Sent)
  }

  datatype Delivery = Handled | NotHandled | Aborted

  class ProvisioningApplicationService {
    var employees: map<Id, EmployeeRow>
    var userOf: map<Id, Id>
    var users: map<Id, UserStatus>
    var invitations: map<nat, Invitation>

    /** Users exist, belong to one employee each, and have at most one open invitation (the unique index). */
    ghost predicate Valid() reads this {
      && (forall e :: e in userOf ==> userOf[e] in users)
      && (forall e, f :: e in userOf && f in userOf && userOf[e] == userOf[f] ==> e == f)
      && OneOpenEach(invitations)
    }

    function PersonOf(id: Id): Person
      requires id in employees
      reads this
    {
      Person(employees[id].status, employees[id].sourceVersion,
             if id in userOf && userOf[id] in users then Some(users[userOf[id]]) else None,
             id in userOf && SentTo(invitations, userOf[id]))
    }

    constructor ()
      ensures Valid() && employees == map[] && users == map[]
    {
      employees, userOf, users, invitations := map[], map[], map[], map[];
    }

    /** Revoking the user's pending invitations. */
    method RevokePending(userId: Id)
      requires Valid()
      modifies this`invitations
      ensures Valid() && invitations == WithoutPending(old(invitations), userId)
    {
      var todo := set i | i in invitations && invitations[i] == Invitation(userId, Pending);
      ghost var all := todo;
      while todo != {}
        invariant todo <= all && invitations.Keys == old(invitations).Keys
        invariant forall i :: i in old(invitations) ==>
          invitations[i] == if i in all - todo then Invitation(userId, Revoked) else old(invitations)[i]
      {
        var i :| i in todo;
        invitations, todo := invitations[i := invitations[i].(status := Revoked)], todo - {i};
      }
    }

    /** The shared beginning of the three branches: the user's status, then the employee row. */
    method WriteStatus(id: Id, kind: Kind, version: int)
      requires Valid() && id in employees && id in userOf
      modifies this`users, this`employees
      ensures Valid()
      ensures users == old(users)[userOf[id] := UserStatusFor(kind)]
      ensures employees == old(employees)[id := EmployeeRow(EmployeeStatusFor(kind), Some(NumberToString(version)))]
    {
      users := users[userOf[id] := UserStatusFor(kind)];
      employees := employees[id := employees[id].(status := EmployeeStatusFor(kind), sourceVersion := Some(NumberToString(version)))];
    }

    /** synchronizeEmployeeStatus. Aborted is an exception of the database; the transaction is rolled back. */
    method SynchronizeEmployeeStatus(eventType: EventType, id: Id, sourceVersion: int, newInvitation: nat) returns (r: Delivery)
      requires Valid() && newInvitation !in invitations
      modifies this
      ensures Valid() && userOf == old(userOf) && employees.Keys == old(employees).Keys && users.Keys == old(users).Keys
      ensures id in old(employees) && eventType.Lifecycle? ==>
        PersonOf(id) == Apply(old(PersonOf(id)), Event(eventType.kind, sourceVersion))
      ensures id in old(employees) && eventType.OtherType? ==>
        PersonOf(id) == if id in userOf || !Newer(old(employees)[id].sourceVersion, sourceVersion) then old(PersonOf(id))
                        else old(PersonOf(id)).(sourceVersion := Some(NumberToString(sourceVersion)))
      ensures id in old(employees) && eventType.Lifecycle? && Newer(old(employees)[id].sourceVersion, sourceVersion) && !r.Aborted? ==>
        && Left(eventType.kind, employees[id].status, if id in userOf then Some(users[userOf[id]]) else None)
        && employees[id].sourceVersion == Some(NumberToString(sourceVersion))
        && (id in userOf ==> LeavesPending(old(invitations), invitations, userOf[id], eventType.kind, newInvitation))
      ensures forall e :: e in old(employees) && e != id ==> PersonOf(e) == old(PersonOf(e))
      ensures r.Aborted? <==>
        (id in old(employees) && eventType.Lifecycle? && Newer(old(employees)[id].sourceVersion, sourceVersion)
         && !Commits(old(PersonOf(id)), eventType.kind))
      ensures (forall u: Id :: !SentTo(old(invitations), u)) ==> !r.Aborted? && forall u: Id :: !SentTo(invitations, u)
      ensures r.NotHandled? <==>
        (id in old(employees) && eventType.OtherType? && id in userOf && Newer(old(employees)[id].sourceVersion, sourceVersion))
      ensures invitations ==
        if id in old(employees) && id in userOf && eventType.Lifecycle? && Newer(old(employees)[id].sourceVersion, sourceVersion)
           && !r.Aborted? then InvitationsAfter(old(invitations), userOf[id], eventType.kind, newInvitation)
        else old(invitations)
    {
      hide SentTo, OneOpenEach, NumberToString, ParseInt, LeavesPending, Left, EmployeeStatusFor, UserStatusFor;
      if eventType.Lifecycle? {
        StatusesLeft(eventType.kind);
      }
      if id !in employees {
        return Handled;
      }
      var stored := Stored(employees[id].sourceVersion);
      if stored.Some? && sourceVersion <= stored.value {
        return Handled;
      }
      if id !in userOf {
        var row := employees[id].(sourceVersion := Some(NumberToString(sourceVersion)));
        if eventType.Lifecycle? {
          row := row.(status := EmployeeStatusFor(eventType.kind));
        }
        employees := employees[id := row];
        return Handled;
      }
      if eventType.OtherType? {
        return NotHandled;
      }
      var userId := userOf[id];
      if eventType.kind.Reactivate? && SentTo(invitations, userId) {
        return Aborted;
      }
      WriteStatus(id, eventType.kind, sourceVersion);
      if !eventType.kind.Suspend? {
        RevokePending(userId);
      }
      if eventType.kind.Reactivate? {
        invitations := invitations[newInvitation := Invitation(userId, Pending)];
      }
      PendingAfter(old(invitations), userId, eventType.kind, newInvitation);
      StillOneOpenEach(old(invitations), userId, eventType.kind, newInvitation);
      forall other: Id ensures SentTo(invitations, other) == SentTo(old(invitations), other) {
        WritesKeepSent(old(invitations), userId, eventType.kind, newInvitation, other);
      }
      return Handled;
    }
  }

  function WithoutPending(invitations: map<nat, Invitation>, userId: Id): map<nat, Invitation> {
    map i | i in invitations :: if invitations[i] == Invitation(userId, Pending) then Invitation(userId, Revoked) else invitations[i]
  }

  /** Termination leaves no pending invitation, reactivation exactly the new one. */
  function InvitationsAfter(invitations: map<nat, Invitation>, userId: Id, kind: Kind, newInvitation: nat): map<nat, Invitation> {
    match kind
    case Suspend => invitations
    case Terminate => WithoutPending(invitations, userId)
    case Reactivate => WithoutPending(invitations, userId)[newInvitation := Invitation(userId, Pending)]
  }

  /** Which of the user's invitations are pending afterwards: the same ones after a suspension, none after a
      termination, and after a reactivation the new one alone; nobody else's have moved. */
  ghost predicate LeavesPending(before: map<nat, Invitation>, after: map<nat, Invitation>, userId: Id, kind: Kind, newInvitation: nat) {
    && (kind == Suspend ==> after == before)
    && (kind == Terminate ==> forall i :: i in after ==> after[i] != Invitation(userId, Pending))
    && (kind == Reactivate ==> forall i :: i in after ==> (after[i] == Invitation(userId, Pending) <==> i == newInvitation))
    && (forall i :: i in before ==> i in after && (before[i].userId != userId ==> after[i] == before[i]))
    && (forall i :: i in before && before[i] == Invitation(userId, Pending) && kind != Suspend ==>
          after[i] == Invitation(userId, Revoked))
  }

  lemma PendingAfter(before: map<nat, Invitation>, userId: Id, kind: Kind, newInvitation: nat)
    requires newInvitation !in before
    ensures LeavesPending(before, InvitationsAfter(before, userId, kind, newInvitation), userId, kind, newInvitation)
    ensures kind == Reactivate ==> newInvitation in InvitationsAfter(before, userId, kind, newInvitation)
  {
  }

  lemma StillOneOpenEach(before: map<nat, Invitation>, userId: Id, kind: Kind, newInvitation: nat)
    requires OneOpenEach(before) && newInvitation !in before && (kind.Reactivate? ==> !SentTo(before, userId))
    ensures OneOpenEach(InvitationsAfter(before, userId, kind, newInvitation))
  {
    forall i | i in before && before[i].userId == userId && kind.Reactivate? ensures !Open(WithoutPending(before, userId)[i]) {
      assert before[i] != Invitation(userId, Sent);
    }
  }

  lemma WritesKeepSent(before: map<nat, Invitation>, userId: Id, kind: Kind, newInvitation: nat, other: Id)
    requires newInvitation !in before
    ensures SentTo(InvitationsAfter(before, userId, kind, newInvitation), other) == SentTo(before, other)
  {
    var after := InvitationsAfter(before, userId, kind, newInvitation);
    if SentTo(before, other) {
      var i :| i in before && before[i] == Invitation(other, Sent);
      assert after[i] == before[i];
    }
    if SentTo(after, other) {
      var i :| i in after && after[i] == Invitation(other, Sent);
      assert i in before && before[i] == after[i];
    }
  }

  // --- deliveries in any order, with redeliveries ---

  /** What a list of deliveries, in this order, makes of an employee. */
  function Deliver(p: Person, events: seq<Event>): Person {
    if events == [] then p else Apply(Deliver(p, events[..|events| - 1]), events[|events| - 1])
  }

  /** Among the events that commit and are newer than the row: the first delivered of the highest version. */
  function Winner(p: Person, events: seq<Event>): Option<Event> {
    if events == [] then None
    else
      var w, e := Winner(p, events[..|events| - 1]), events[|events| - 1];
      if !Commits(p, e.kind) then w
      else if w.Some? then (if e.version > w.value.version then Some(e) else w)
      else if Newer(p.sourceVersion, e.version) then Some(e) else None
  }

  /** Whatever was delivered, the employee ends as its winner leaves it; the version written as text
      reads back as the number it was. */
  lemma {:induction false} DeliveryIsDecidedByWinner(p: Person, events: seq<Event>)
    ensures Deliver(p, events) == match Winner(p, events) case None => p case Some(w) => Outcome(p, w)
  {
    if events != [] {
      var front, e := events[..|events| - 1], events[|events| - 1];
      DeliveryIsDecidedByWinner(p, front);
      var w := Winner(p, front);
      if w.Some? {
        ParseIntReadsNumberToString(w.value.version);
        assert NumberToString(w.value.version) != "";
      }
    }
  }

  /** The events whose transactions go through. */
  predicate Effective(p: Person, e: Event) {
    Commits(p, e.kind) && Newer(p.sourceVersion, e.version)
  }

  predicate Highest(p: Person, events: seq<Event>, w: Event) {
    w in events && Effective(p, w) && forall e :: e in events && Effective(p, e) ==> e.version <= w.version
  }

  lemma {:induction false} WinnerIsHighest(p: Person, events: seq<Event>)
    ensures match Winner(p, events)
      case Some(w) => Highest(p, events, w)
      case None => forall e :: e in events ==> !Effective(p, e)
  {
    if events != [] {
      var front, last := events[..|events| - 1], events[|events| - 1];
      WinnerIsHighest(p, front);
      assert forall e :: e in events <==> e in front || e == last;
    }
  }

  /** An event delivered first wins against events of its own version. */
  lemma {:induction false} FirstOfHighestWins(p: Person, w: Event, events: seq<Event>)
    requires Highest(p, [w] + events, w)
    ensures Winner(p, [w] + events) == Some(w)
  {
    var all := [w] + events;
    if events == [] {
      assert all[..0] == [];
    } else {
      var front := events[..|events| - 1];
      assert all[..|all| - 1] == [w] + front;
      assert forall e :: e in [w] + front ==> e in all;
      FirstOfHighestWins(p, w, front);
      assert all[|all| - 1] in all;
    }
  }

  /** Events of the highest effective version are all of one kind, as when the version determines the event. */
  predicate OneKindOnTop(p: Person, events: seq<Event>) {
    forall a, b :: a in events && b in events && Highest(p, events, a) && Highest(p, events, b) ==> a.kind == b.kind
  }

  /** The same events, in any order and with any redeliveries. */
  predicate SameEvents(one: seq<Event>, two: seq<Event>) {
    (forall e :: e in one ==> e in two) && (forall e :: e in two ==> e in one)
  }

  ghost predicate OrderDoesNotMatter(p: Person, events: seq<Event>) {
    forall other: seq<Event> :: SameEvents(other, events) ==> Deliver(p, other) == Deliver(p, events)
  }

  lemma SameEventsSameResult(p: Person, one: seq<Event>, two: seq<Event>)
    requires SameEvents(one, two) && OneKindOnTop(p, two)
    ensures Deliver(p, one) == Deliver(p, two)
  {
    DeliveryIsDecidedByWinner(p, one);
    DeliveryIsDecidedByWinner(p, two);
    WinnerIsHighest(p, one);
    WinnerIsHighest(p, two);
    var v, w := Winner(p, one), Winner(p, two);
    assert v.Some? ==> v.value in two && Effective(p, v.value);
    assert w.Some? ==> w.value in one && Effective(p, w.value);
    if v.Some? {
      assert w.Some? && v.value.version == w.value.version;
      assert Highest(p, two, v.value);
    }
  }

  /** Any event of the highest effective version wins in some delivery order. */
  lemma DeliveredFirst(p: Person, events: seq<Event>, a: Event)
    requires Highest(p, events, a)
    ensures SameEvents([a] + events, events) && Deliver(p, [a] + events) == Outcome(p, a)
  {
    hide Effective;
    assert forall x :: x in [a] + events <==> x in events;
    FirstOfHighestWins(p, a, events);
    DeliveryIsDecidedByWinner(p, [a] + events);
  }

  /** Convergence, exactly: all delivery orders, with any redeliveries, leave the same employee status,
      user status and stored version iff the events of the highest effective version agree on their kind. */
  lemma ConvergenceIsExact(p: Person, events: seq<Event>)
    ensures OrderDoesNotMatter(p, events) <==> OneKindOnTop(p, events)
  {
    hide Deliver, SameEvents, Highest;
    if OneKindOnTop(p, events) {
      forall other: seq<Event> | SameEvents(other, events) ensures Deliver(p, other) == Deliver(p, events) {
        SameEventsSameResult(p, other, events);
      }
    } else {
      var a, b :| a in events && b in events && Highest(p, events, a) && Highest(p, events, b) && a.kind != b.kind;
      DeliveredFirst(p, events, a);
      DeliveredFirst(p, events, b);
      assert Deliver(p, [a] + events).status != Deliver(p, [b] + events).status;
    }
  }

  /** When the version determines the event and the newest event commits, every delivery order ends
      in the state of the newest event; if it cannot commit, none does. */
  lemma NewestEventDecides(p: Person, events: seq<Event>, newest: Event)
    requires newest in events && Newer(p.sourceVersion, newest.version)
    requires forall e :: e in events ==> e == newest || e.version < newest.version
    ensures Commits(p, newest.kind) <==> Deliver(p, events) == Outcome(p, newest)
  {
    DeliveryIsDecidedByWinner(p, events);
    WinnerIsHighest(p, events);
    ParseIntReadsNumberToString(newest.version);
    var w := Winner(p, events);
    if Commits(p, newest.kind) {
      assert Effective(p, newest);
    } else {
      if w.Some? {
        ParseIntReadsNumberToString(w.value.version);
      }
      assert NumberToString(newest.version) != "";
    }
  }

  /** After any deliveries, in any order and with any redeliveries: the newest event that can commit has left
      employee and user the way its kind does. A user whose employee was terminated last is archived, however
      late older suspensions and reactivations came. */
  lemma NewestCommittingEventLeavesItsStatus(p: Person, events: seq<Event>, newest: Event)
    requires newest in events && Newer(p.sourceVersion, newest.version) && Commits(p, newest.kind)
    requires forall e :: e in events && Commits(p, e.kind) ==>
      e.version < newest.version || (e.version == newest.version && e.kind == newest.kind)
    ensures var end := Deliver(p, events);
      && Left(newest.kind, end.status, end.user) && end.user.Some? == p.user.Some?
      && end.sourceVersion == Some(NumberToString(newest.version))
  {
    hide Deliver, Newer;
    DeliveryIsDecidedByWinner(p, events);
    WinnerIsHighest(p, events);
    var w := Winner(p, events);
    hide Winner;
    assert Effective(p, newest);
    assert w.Some? && w.value.kind == newest.kind && w.value.version == newest.version;
  }

  /** What counts as newer: any positive version for a row without one, the greater number for a row whose
      version is a number, and anything for a row whose version is not. */
  lemma NewerMeansGreater(stored: int, version: int, text: string)
    ensures text != "" && ParseInt(text).None? ==> Newer(Some(text), version)
    ensures Newer(Some(NumberToString(stored)), version) <==> version > stored
    ensures Newer(None, version) <==> version > 0
    ensures Newer(Some(""), version) <==> version > 0
  {
    ParseIntReadsNumberToString(stored);
    hide ParseInt;
    assert NumberToString(stored) != "";
  }

  /** Without a sent invitation nothing is rolled back: the newest event decides, whatever its kind. */
  lemma WithoutSentNewestAlwaysWins(p: Person, events: seq<Event>, newest: Event)
    requires !p.sentInvitation && newest in events && Newer(p.sourceVersion, newest.version)
    requires forall e :: e in events ==> e == newest || e.version < newest.version
    ensures Deliver(p, events) == Outcome(p, newest)
  {
    hide Deliver, Outcome, Newer;
    NewestEventDecides(p, events, newest);
  }

  /** A reactivation of a user whose invitation was sent is rolled back every time it is delivered. */
  lemma SentInvitationBlocksReactivation()
    ensures var p := Person(EmployeeSuspended, Some("3"), Some(Disabled), true);
      Deliver(p, [Event(Reactivate, 4), Event(Reactivate, 4)]) == p
  {
    var p := Person(EmployeeSuspended, Some("3"), Some(Disabled), true);
    var events := [Event(Reactivate, 4), Event(Reactivate, 4)];
    DeliveryIsDecidedByWinner(p, events);
    WinnerIsHighest(p, events);
  }
}

/**
 * The first variant of the application (gymManagement.py): the membership
 * status rule, login-time re-evaluation, the gated class and workout views,
 * and the payment, class-scheduling and member-creation workflows.
 */
module GymManagement {
  import opened Wrappers
  import opened Tables

  /** A member whose last payment is more than this many months old is Inactive. */
  const LapseMonths := 15

  /** What the "Workout Plan" tab shows: the workout of the class it selects. */
  datatype WorkoutView = InactiveWorkoutWarning | ShowWorkout(workoutId: int) | NoWorkoutPlan

  // ---------------------------------------------------------------------
  // Calendar-month arithmetic
  // ---------------------------------------------------------------------

  /** The number of whole months from year 0 to the month of `d`. */
  function MonthIndex(d: Date): int {
    d.year * 12 + (d.month - 1)
  }

  /**
   * `months_between`: the month count from `d1` to `d2`, ignoring the day of
   * the month. Nothing checks that `d2` is not before `d1`.
   */
  function MonthsBetween(d1: Date, d2: Date): (r: int)
    ensures r == MonthIndex(d2) - MonthIndex(d1)
  {
    (d2.year - d1.year) * 12 + (d2.month - d1.month)
  }

  /** The day of the month plays no part in the month count. */
  lemma MonthsBetweenIgnoresDay(d1: Date, d2: Date, day1: int, day2: int)
    ensures MonthsBetween(d1.(day := day1), d2.(day := day2)) == MonthsBetween(d1, d2)
  {
  }

  /** The last day of a month and the first of the next are one month apart. */
  lemma MonthEndToNextMonthStart()
    ensures MonthsBetween(Date(2024, 1, 31), Date(2024, 2, 1)) == 1
    ensures MonthsBetween(Date(2023, 12, 31), Date(2024, 1, 1)) == 1
  {
  }

  /** For real dates the sign of the month count follows the order of the dates. */
  lemma MonthsBetweenFollowsOrder(d1: Date, d2: Date)
    requires ValidDate(d1) && ValidDate(d2)
    ensures DateLe(d1, d2) ==> MonthsBetween(d1, d2) >= 0
    ensures DateLe(d2, d1) ==> MonthsBetween(d1, d2) <= 0
    ensures MonthsBetween(d1, d2) < 0 ==> !DateLe(d1, d2)
  {
  }

  /** A second date in an earlier month gives a negative count. */
  lemma MonthsBetweenCanBeNegative()
    ensures MonthsBetween(Date(2024, 3, 1), Date(2024, 1, 31)) == -2
  {
  }

  // ---------------------------------------------------------------------
  // The status rule (update_member_status)
  // ---------------------------------------------------------------------

  /**
   * `SELECT payment_date FROM payment WHERE member_id = %s ORDER BY
   * payment_date DESC LIMIT 1`: the latest date among the member's payments,
   * or None when the member has paid nothing.
   */
  function LatestPaymentDate(payments: seq<Payment>, memberId: int): (r: Option<Date>)
    ensures r.None? <==> forall i :: 0 <= i < |payments| ==> payments[i].memberId != memberId
    ensures r.Some? ==> exists i :: 0 <= i < |payments| && payments[i].memberId == memberId && payments[i].date == r.value
    ensures r.Some? ==> forall i :: 0 <= i < |payments| && payments[i].memberId == memberId ==> DateLe(payments[i].date, r.value)
  {
    if |payments| == 0 then None
    else
      var p := payments[|payments| - 1];
      var earlier := LatestPaymentDate(payments[..|payments| - 1], memberId);
      if p.memberId != memberId then earlier
      else if earlier.Some? && DateLe(p.date, earlier.value) then earlier
      else Some(p.date)
  }

  /**
   * The pair `update_member_status` returns: the status it writes and the
   * reference payment date. Inactive with no payment; with one, Inactive
   * exactly when it is more than `LapseMonths` calendar months old.
   */
  function Evaluate(payments: seq<Payment>, memberId: int, today: Date): (r: (Status, Option<Date>))
    ensures r.1 == LatestPaymentDate(payments, memberId)
    ensures r.0 == Active || r.0 == Inactive
    ensures r.0 == Active <==> r.1.Some? && MonthsBetween(r.1.value, today) <= LapseMonths
  {
    var last := LatestPaymentDate(payments, memberId);
    match last
    case None => (Inactive, None)
    case Some(d) => if MonthsBetween(d, today) > LapseMonths then (Inactive, last) else (Active, last)
  }

  /**
   * `UPDATE member SET membership_status = %s WHERE memberID = %s`. An id
   * with no row matches nothing.
   */
  function WithStatus(members: map<int, Member>, memberId: int, status: Status): (r: map<int, Member>)
    ensures r.Keys == members.Keys
    ensures memberId in members ==> r[memberId] == members[memberId].(status := status)
    ensures forall id :: id in members && id != memberId ==> r[id] == members[id]
  {
    if memberId in members then members[memberId := members[memberId].(status := status)] else members
  }

  /**
   * `update_member_status`: recompute the member's status from the payment
   * table as of `today`, write it even when it is unchanged, and return it
   * with the reference date. Only that member's status changes.
   */
  method UpdateMemberStatus(s: Store, memberId: int, today: Date) returns (status: Status, lastPaymentDate: Option<Date>)
    requires s.Valid()
    modifies s`members
    ensures s.Valid()
    ensures (status, lastPaymentDate) == Evaluate(s.payments, memberId, today)
    ensures s.members == WithStatus(old(s.members), memberId, status)
  {
    var decision := Evaluate(s.payments, memberId, today);
    status, lastPaymentDate := decision.0, decision.1;
    s.members := WithStatus(s.members, memberId, status);
  }

  /** With no payment on record the member is Inactive and there is no reference date. */
  lemma NoPaymentIsInactive(payments: seq<Payment>, memberId: int, today: Date)
    requires forall i :: 0 <= i < |payments| ==> payments[i].memberId != memberId
    ensures Evaluate(payments, memberId, today) == (Inactive, None)
  {
  }

  /**
   * The threshold: a gap of exactly 15 months is still Active, 16 is
   * Inactive, and a reference date in a later month than today is Active.
   */
  lemma LapseBoundary(payments: seq<Payment>, memberId: int, today: Date)
    requires LatestPaymentDate(payments, memberId).Some?
    ensures var d := LatestPaymentDate(payments, memberId).value;
      && (MonthsBetween(d, today) == 15 ==> Evaluate(payments, memberId, today) == (Active, Some(d)))
      && (MonthsBetween(d, today) == 16 ==> Evaluate(payments, memberId, today) == (Inactive, Some(d)))
      && (MonthsBetween(d, today) < 0 ==> Evaluate(payments, memberId, today) == (Active, Some(d)))
  {
  }

  /** Appending a payment of another member leaves this member's latest date alone. */
  lemma {:induction false} LatestIgnoresOtherMembers(payments: seq<Payment>, p: Payment, memberId: int)
    requires p.memberId != memberId
    ensures LatestPaymentDate(payments + [p], memberId) == LatestPaymentDate(payments, memberId)
  {
    assert (payments + [p])[..|payments|] == payments;
  }

  /** Appending a payment of the member makes its date the latest unless a later one exists. */
  lemma {:induction false} LatestAfterOwnPayment(payments: seq<Payment>, p: Payment)
    ensures var before := LatestPaymentDate(payments, p.memberId);
      LatestPaymentDate(payments + [p], p.memberId) ==
        if before.Some? && DateLe(p.date, before.value) then before else Some(p.date)
  {
    assert (payments + [p])[..|payments|] == payments;
  }

  /**
   * A payment dated today makes the member Active when re-evaluated today:
   * its gap is 0, and any later-dated payment has a gap of at most 0.
   */
  lemma {:induction false} PaidTodayIsActive(payments: seq<Payment>, p: Payment, today: Date)
    requires forall i :: 0 <= i < |payments| ==> ValidDate(payments[i].date)
    requires ValidDate(today) && p.date == today
    ensures Evaluate(payments + [p], p.memberId, today).0 == Active
  {
    LatestAfterOwnPayment(payments, p);
    var before := LatestPaymentDate(payments, p.memberId);
    if before.Some? && DateLe(today, before.value) {
      var i :| 0 <= i < |payments| && payments[i].memberId == p.memberId && payments[i].date == before.value;
      MonthsBetweenFollowsOrder(before.value, today);
    }
  }

  /**
   * The status write is idempotent: writing the same status a second time
   * leaves the rows as the first write left them.
   */
  lemma StatusWriteIsIdempotent(members: map<int, Member>, memberId: int, st: Status)
    ensures WithStatus(WithStatus(members, memberId, st), memberId, st) == WithStatus(members, memberId, st)
  {
  }

  /** Two logins on the same day return the same pair and leave the same state. */
  method ReevaluateTwice(s: Store, memberId: int, today: Date)
    returns (first: (Status, Option<Date>), second: (Status, Option<Date>))
    requires s.Valid()
    modifies s`members
    ensures s.Valid()
    ensures first == second
    ensures s.members == WithStatus(old(s.members), memberId, first.0)
  {
    var st1, d1 := UpdateMemberStatus(s, memberId, today);
    var st2, d2 := UpdateMemberStatus(s, memberId, today);
    StatusWriteIsIdempotent(old(s.members), memberId, st1);
    first, second := (st1, d1), (st2, d2);
  }

  /**
   * Passive evaluation can promote: a member stored as Inactive whose last
   * payment is recent becomes Active on the next login.
   */
  lemma PassiveEvaluationPromotes()
    ensures var m := NewMember("a@gym", 1, 1, Inactive);
      var pays := [Payment(1, 7, 500, Date(2024, 1, 15), Cash)];
      WithStatus(map[7 := m], 7, Evaluate(pays, 7, Date(2024, 3, 1)).0)[7].status == Active
  {
    var pays := [Payment(1, 7, 500, Date(2024, 1, 15), Cash)];
    assert pays[..0] == [];
  }

  /** The worked examples of the status rule. */
  lemma StatusScenarios()
    ensures Evaluate([Payment(1, 7, 500, Date(2024, 1, 15), Cash)], 7, Date(2024, 6, 15)) == (Active, Some(Date(2024, 1, 15)))
    ensures Evaluate([Payment(1, 7, 500, Date(2023, 1, 1), Card)], 7, Date(2024, 6, 1)) == (Inactive, Some(Date(2023, 1, 1)))
    ensures Evaluate([Payment(1, 8, 500, Date(2023, 1, 1), Card)], 7, Date(2024, 6, 1)) == (Inactive, None)
    ensures Evaluate([Payment(1, 7, 500, Date(2024, 1, 31), Upi)], 7, Date(2024, 2, 1)) == (Active, Some(Date(2024, 1, 31)))
  {
    assert [Payment(1, 7, 500, Date(2024, 1, 15), Cash)][..0] == [];
    assert [Payment(1, 7, 500, Date(2023, 1, 1), Card)][..0] == [];
    assert [Payment(1, 8, 500, Date(2023, 1, 1), Card)][..0] == [];
    assert [Payment(1, 7, 500, Date(2024, 1, 31), Upi)][..0] == [];
  }

  // ---------------------------------------------------------------------
  // Login-time re-evaluation
  // ---------------------------------------------------------------------

  /**
   * The member panel for a logged-in email: look up the member row by email
   * (stopping with an error when there is none) and re-evaluate its status
   * before anything gated is shown.
   */
  method Login(s: Store, email: string, today: Date) returns (r: Result<(int, Status, Option<Date>), Error>)
    requires s.Valid()
    modifies s`members
    ensures s.Valid()
    ensures r.Failure? <==> forall id :: id in old(s.members) ==> old(s.members)[id].email != email
    ensures r.Failure? ==> r.error == MemberNotFound && s.members == old(s.members)
    ensures r.Success? ==>
      var (id, status, last) := r.value;
      && id in old(s.members) && old(s.members)[id].email == email
      && (status, last) == Evaluate(s.payments, id, today)
      && s.members == WithStatus(old(s.members), id, status)
  {
    if id :| id in s.members && s.members[id].email == email {
      var status, last := UpdateMemberStatus(s, id, today);
      r := Success((id, status, last));
    } else {
      r := Failure(MemberNotFound);
    }
  }

  // ---------------------------------------------------------------------
  // Class and workout views
  // ---------------------------------------------------------------------

  /**
   * `WHERE C.trainer_id = %s AND C.date >= CURDATE() ORDER BY C.date ASC
   * LIMIT 1`: the trainer's earliest class dated on or after today.
   */
  function EarliestUpcoming(classes: seq<Class>, trainerId: int, today: Date): (r: Option<Class>)
    ensures r.None? <==> forall i :: 0 <= i < |classes| ==> !(classes[i].trainerId == trainerId && DateLe(today, classes[i].date))
    ensures r.Some? ==> r.value in classes && r.value.trainerId == trainerId && DateLe(today, r.value.date)
    ensures r.Some? ==> forall i :: 0 <= i < |classes| && classes[i].trainerId == trainerId && DateLe(today, classes[i].date) ==>
      DateLe(r.value.date, classes[i].date)
  {
    if |classes| == 0 then None
    else
      var c := classes[|classes| - 1];
      var earlier := EarliestUpcoming(classes[..|classes| - 1], trainerId, today);
      if !(c.trainerId == trainerId && DateLe(today, c.date)) then earlier
      else if earlier.Some? && DateLe(earlier.value.date, c.date) then earlier
      else Some(c)
  }

  /**
   * The class both gated tabs look up for an Active member: the assigned
   * class by id, or failing that the trainer's earliest class from today on.
   */
  function SelectedClass(m: Member, classes: seq<Class>, today: Date): (r: Option<Class>)
    ensures r.Some? && HasClass(m) ==> r.value in classes && r.value.id == m.classId.value
    ensures r.Some? && !HasClass(m) ==>
      && r.value in classes && r.value.trainerId == m.trainerId && DateLe(today, r.value.date)
      && forall i :: 0 <= i < |classes| && classes[i].trainerId == m.trainerId && DateLe(today, classes[i].date) ==>
           DateLe(r.value.date, classes[i].date)
    ensures r.None? && HasClass(m) ==> forall i :: 0 <= i < |classes| ==> classes[i].id != m.classId.value
    ensures r.None? && !HasClass(m) ==>
      forall i :: 0 <= i < |classes| ==> !(classes[i].trainerId == m.trainerId && DateLe(today, classes[i].date))
  {
    if HasClass(m) then ClassById(classes, m.classId.value) else EarliestUpcoming(classes, m.trainerId, today)
  }

  /**
   * The "Upcoming Class" tab: a warning and no lookup unless the member is
   * Active; otherwise the assigned class, or failing that the trainer's
   * earliest class from today on.
   */
  function ClassView(m: Member, classes: seq<Class>, today: Date): (v: ClassView)
    ensures v.InactiveWarning? <==> m.status != Active
    ensures v.ShowClass? && HasClass(m) ==> v.c in classes && v.c.id == m.classId.value
    ensures v.ShowClass? && !HasClass(m) ==>
      && v.c in classes && v.c.trainerId == m.trainerId && DateLe(today, v.c.date)
      && forall i :: 0 <= i < |classes| && classes[i].trainerId == m.trainerId && DateLe(today, classes[i].date) ==>
           DateLe(v.c.date, classes[i].date)
    ensures v.NoClassScheduled? && HasClass(m) ==> forall i :: 0 <= i < |classes| ==> classes[i].id != m.classId.value
    ensures v.NoClassScheduled? && !HasClass(m) ==>
      forall i :: 0 <= i < |classes| ==> !(classes[i].trainerId == m.trainerId && DateLe(today, classes[i].date))
  {
    if m.status != Active then InactiveWarning
    else
      var found := SelectedClass(m, classes, today);
      if found.Some? then ShowClass(found.value) else NoClassScheduled
  }

  /**
   * The "Workout Plan" tab: the same gate, and the workout of the assigned
   * class or of the trainer's earliest class from today on.
   */
  function WorkoutPlan(m: Member, classes: seq<Class>, today: Date): (v: WorkoutView)
    ensures v.InactiveWorkoutWarning? <==> ClassView(m, classes, today).InactiveWarning?
    ensures v.ShowWorkout? <==> ClassView(m, classes, today).ShowClass?
    ensures v.ShowWorkout? ==> v.workoutId == ClassView(m, classes, today).c.workoutId
  {
    if m.status != Active then InactiveWorkoutWarning
    else
      match SelectedClass(m, classes, today)
      case Some(c) => ShowWorkout(c.workoutId)
      case None => NoWorkoutPlan
  }

  // ---------------------------------------------------------------------
  // Submit Payment
  // ---------------------------------------------------------------------

  /** The payment form is offered only when the member's scheme has a nonzero fee. */
  predicate HasFee(schemeFee: Option<int>) {
    schemeFee.Some? && schemeFee.value != 0
  }

  /**
   * `UPDATE member SET payment_id = %s, last_payment_date = %s,
   * membership_status = 'Active' WHERE memberID = %s`.
   */
  function RecordPayment(members: map<int, Member>, memberId: int, paymentId: int, today: Date): (r: map<int, Member>)
    ensures r.Keys == members.Keys
    ensures forall id :: id in members && id != memberId ==> r[id] == members[id]
    ensures memberId in members ==>
      && r[memberId].status == Active
      && r[memberId].paymentId == Some(paymentId) && r[memberId].lastPaymentDate == Some(today)
      && r[memberId].(paymentId := members[memberId].paymentId, lastPaymentDate := members[memberId].lastPaymentDate,
                      status := members[memberId].status) == members[memberId]
  {
    if memberId in members then
      members[memberId := members[memberId].(paymentId := Some(paymentId), lastPaymentDate := Some(today), status := Active)]
    else members
  }

  /**
   * "Submit Payment": insert a payment dated today for the scheme fee, take
   * its id from the payment counter, and link it to the member, who becomes
   * Active. Without a scheme fee there is no form, so nothing happens.
   */
  method SubmitPayment(s: Store, memberId: int, schemeFee: Option<int>, amount: int, payMethod: PayMethod, today: Date)
    returns (r: Result<int, Error>)
    requires s.Valid() && ValidDate(today)
    requires schemeFee.Some? ==> amount == schemeFee.value
    modifies s`payments, s`nextPaymentId, s`members
    ensures s.Valid()
    ensures !HasFee(schemeFee) ==>
      r == Failure(NoSchemeFee) && s.payments == old(s.payments) && s.nextPaymentId == old(s.nextPaymentId)
      && s.members == old(s.members)
    ensures HasFee(schemeFee) ==>
      && r == Success(old(s.nextPaymentId))
      && (forall i :: 0 <= i < |old(s.payments)| ==> old(s.payments)[i].id != r.value)
      && s.payments == old(s.payments) + [Payment(r.value, memberId, amount, today, payMethod)]
      && s.nextPaymentId == old(s.nextPaymentId) + 1
      && s.members == RecordPayment(old(s.members), memberId, r.value, today)
  {
    if !HasFee(schemeFee) {
      return Failure(NoSchemeFee);
    }
    var paymentId := s.nextPaymentId;
    s.payments := s.payments + [Payment(paymentId, memberId, amount, today, payMethod)];
    s.nextPaymentId := s.nextPaymentId + 1;
    s.members := RecordPayment(s.members, memberId, paymentId, today);
    r := Success(paymentId);
  }

  /**
   * After a payment the stored status agrees with the rule: the next
   * re-evaluation on the same day yields Active, as the row already says.
   */
  method PayThenReevaluate(s: Store, memberId: int, schemeFee: Option<int>, amount: int, payMethod: PayMethod, today: Date)
    returns (paid: Result<int, Error>, status: Status)
    requires s.Valid() && ValidDate(today) && memberId in s.members
    requires schemeFee.Some? ==> amount == schemeFee.value
    modifies s`payments, s`nextPaymentId, s`members
    ensures s.Valid()
    ensures paid.Success? <==> HasFee(schemeFee)
    ensures s.members.Keys == old(s.members).Keys
    ensures paid.Success? ==> status == Active && s.members[memberId].status == Active
  {
    paid := SubmitPayment(s, memberId, schemeFee, amount, payMethod, today);
    if paid.Success? {
      PaidTodayIsActive(old(s.payments), Payment(paid.value, memberId, amount, today, payMethod), today);
    }
    var last;
    status, last := UpdateMemberStatus(s, memberId, today);
  }

  // ---------------------------------------------------------------------
  // Add Class
  // ---------------------------------------------------------------------

  /** The rows `WHERE trainer_id = %s AND membership_status = 'Active'` selects. */
  function ActiveMembersOf(members: map<int, Member>, trainerId: int): set<int> {
    set id | id in members && members[id].trainerId == trainerId && members[id].status == Active
  }

  /**
   * "Add Class": insert the class, take its id from the class counter, and
   * give that id to the trainer's Active members only.
   */
  method AddClass(s: Store, trainerId: int, date: Date, workoutId: int) returns (classId: int)
    requires s.Valid()
    modifies s`classes, s`nextClassId, s`members
    ensures s.Valid()
    ensures classId == old(s.nextClassId) && s.nextClassId == classId + 1
    ensures forall i :: 0 <= i < |old(s.classes)| ==> old(s.classes)[i].id != classId
    ensures s.classes == old(s.classes) + [Class(classId, trainerId, date, workoutId)]
    ensures s.members == SetClass(old(s.members), ActiveMembersOf(old(s.members), trainerId), classId)
  {
    classId := s.nextClassId;
    s.classes := s.classes + [Class(classId, trainerId, date, workoutId)];
    s.nextClassId := s.nextClassId + 1;
    s.members := SetClass(s.members, ActiveMembersOf(s.members, trainerId), classId);
  }

  /**
   * Scheduling touches exactly the class id of the trainer's Active members;
   * every other column and every other member keeps its value.
   */
  lemma ScheduleReachesActiveOnly(members: map<int, Member>, trainerId: int, classId: int)
    ensures var r := SetClass(members, ActiveMembersOf(members, trainerId), classId);
      && r.Keys == members.Keys
      && (forall id :: id in members ==> r[id].(classId := members[id].classId) == members[id])
      && (forall id :: id in members && members[id].trainerId == trainerId && members[id].status == Active ==>
            r[id].classId == Some(classId))
      && (forall id :: id in members && !(members[id].trainerId == trainerId && members[id].status == Active) ==>
            r[id] == members[id])
  {
  }

  // ---------------------------------------------------------------------
  // Add Member
  // ---------------------------------------------------------------------

  /**
   * "Add Member": refuse an email the login table already holds; otherwise
   * add a Member login and a member row that is Inactive until its first
   * payment.
   */
  method AddMember(s: Store, email: string, trainerId: int, schemeId: int) returns (r: Result<int, Error>)
    requires s.Valid()
    modifies s`logins, s`members, s`nextMemberId
    ensures s.Valid()
    ensures email in old(s.logins) ==>
      r == Failure(EmailExists) && s.logins == old(s.logins) && s.members == old(s.members)
      && s.nextMemberId == old(s.nextMemberId)
    ensures email !in old(s.logins) ==>
      && r == Success(old(s.nextMemberId)) && r.value !in old(s.members)
      && s.logins == old(s.logins)[email := MemberLogin]
      && s.members == old(s.members)[r.value := NewMember(email, trainerId, schemeId, Inactive)]
      && s.members[r.value].status == Inactive && !HasClass(s.members[r.value])
      && s.members[r.value].paymentId.None? && s.members[r.value].lastPaymentDate.None?
      && s.nextMemberId == old(s.nextMemberId) + 1
  {
    if email in s.logins {
      return Failure(EmailExists);
    }
    var memberId := s.nextMemberId;
    s.logins := s.logins[email := MemberLogin];
    s.members := s.members[memberId := NewMember(email, trainerId, schemeId, Inactive)];
    s.nextMemberId := s.nextMemberId + 1;
    r := Success(memberId);
  }

  /** A new member sees no class and no workout until a payment makes it Active. */
  lemma NewMemberIsGated(email: string, trainerId: int, schemeId: int, classes: seq<Class>, today: Date)
    ensures ClassView(NewMember(email, trainerId, schemeId, Inactive), classes, today) == InactiveWarning
    ensures WorkoutPlan(NewMember(email, trainerId, schemeId, Inactive), classes, today) == InactiveWorkoutWarning
  {
  }
}

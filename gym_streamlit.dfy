/**
 * The second variant of the application (gymStreamlit.py): the same
 * workflows with looser rules. There is no status evaluation: the class
 * view is not gated, a payment only links itself to the member, a new class
 * goes to every member of the trainer, and a new member's status is left
 * to the column's default.
 */
module GymStreamlit {
  import opened Wrappers
  import opened Tables

  /** The payment form's `min_value`. */
  const MinPayment := 100

  /**
   * `WHERE C.trainer_id = %s ORDER BY C.date DESC LIMIT 1`: the trainer's
   * latest-dated class, past or future.
   */
  function LatestClass(classes: seq<Class>, trainerId: int): (r: Option<Class>)
    ensures r.None? <==> forall i :: 0 <= i < |classes| ==> classes[i].trainerId != trainerId
    ensures r.Some? ==> r.value in classes && r.value.trainerId == trainerId
    ensures r.Some? ==> forall i :: 0 <= i < |classes| && classes[i].trainerId == trainerId ==>
      DateLe(classes[i].date, r.value.date)
  {
    if |classes| == 0 then None
    else
      var c := classes[|classes| - 1];
      var earlier := LatestClass(classes[..|classes| - 1], trainerId);
      if c.trainerId != trainerId then earlier
      else if earlier.Some? && DateLe(c.date, earlier.value.date) then earlier
      else Some(c)
  }

  /**
   * The "Upcoming Class" tab, shown whatever the member's status: the
   * assigned class, or failing that the trainer's latest class.
   */
  function ClassView(m: Member, classes: seq<Class>): (v: ClassView)
    ensures !v.InactiveWarning?
    ensures v.ShowClass? && HasClass(m) ==> v.c in classes && v.c.id == m.classId.value
    ensures v.ShowClass? && !HasClass(m) ==>
      && v.c in classes && v.c.trainerId == m.trainerId
      && forall i :: 0 <= i < |classes| && classes[i].trainerId == m.trainerId ==> DateLe(classes[i].date, v.c.date)
    ensures v.NoClassScheduled? && HasClass(m) ==> forall i :: 0 <= i < |classes| ==> classes[i].id != m.classId.value
    ensures v.NoClassScheduled? && !HasClass(m) ==> forall i :: 0 <= i < |classes| ==> classes[i].trainerId != m.trainerId
  {
    var found := if HasClass(m) then ClassById(classes, m.classId.value) else LatestClass(classes, m.trainerId);
    if found.Some? then ShowClass(found.value) else NoClassScheduled
  }

  /** `UPDATE member SET payment_id = %s WHERE memberID = %s`. */
  function LinkPayment(members: map<int, Member>, memberId: int, paymentId: int): (r: map<int, Member>)
    ensures r.Keys == members.Keys
    ensures forall id :: id in members && id != memberId ==> r[id] == members[id]
    ensures memberId in members ==>
      r[memberId].paymentId == Some(paymentId) &&
      r[memberId].(paymentId := members[memberId].paymentId) == members[memberId]
  {
    if memberId in members then members[memberId := members[memberId].(paymentId := Some(paymentId))] else members
  }

  /**
   * "Submit Payment": insert a payment dated today, take its id from the
   * payment counter, and link it to the member. The status, the last
   * payment date and every other column stay as they were.
   */
  method SubmitPayment(s: Store, memberId: int, amount: int, payMethod: PayMethod, today: Date) returns (paymentId: int)
    requires s.Valid() && ValidDate(today)
    requires amount >= MinPayment
    modifies s`payments, s`nextPaymentId, s`members
    ensures s.Valid()
    ensures paymentId == old(s.nextPaymentId) && s.nextPaymentId == paymentId + 1
    ensures forall i :: 0 <= i < |old(s.payments)| ==> old(s.payments)[i].id != paymentId
    ensures s.payments == old(s.payments) + [Payment(paymentId, memberId, amount, today, payMethod)]
    ensures s.members == LinkPayment(old(s.members), memberId, paymentId)
  {
    paymentId := s.nextPaymentId;
    s.payments := s.payments + [Payment(paymentId, memberId, amount, today, payMethod)];
    s.nextPaymentId := s.nextPaymentId + 1;
    s.members := LinkPayment(s.members, memberId, paymentId);
  }

  /** The rows `WHERE trainer_id = %s` selects. */
  function MembersOf(members: map<int, Member>, trainerId: int): set<int> {
    set id | id in members && members[id].trainerId == trainerId
  }

  /**
   * "Add Class": insert the class, take its id from the class counter, and
   * give that id to every member of the trainer, whatever their status.
   */
  method AddClass(s: Store, trainerId: int, date: Date, workoutId: int) returns (classId: int)
    requires s.Valid()
    modifies s`classes, s`nextClassId, s`members
    ensures s.Valid()
    ensures classId == old(s.nextClassId) && s.nextClassId == classId + 1
    ensures forall i :: 0 <= i < |old(s.classes)| ==> old(s.classes)[i].id != classId
    ensures s.classes == old(s.classes) + [Class(classId, trainerId, date, workoutId)]
    ensures s.members == SetClass(old(s.members), MembersOf(old(s.members), trainerId), classId)
  {
    classId := s.nextClassId;
    s.classes := s.classes + [Class(classId, trainerId, date, workoutId)];
    s.nextClassId := s.nextClassId + 1;
    s.members := SetClass(s.members, MembersOf(s.members, trainerId), classId);
  }

  /**
   * Scheduling gives the class to every member of the trainer and touches
   * nothing else.
   */
  lemma ScheduleReachesAllOfTrainer(members: map<int, Member>, trainerId: int, classId: int)
    ensures var r := SetClass(members, MembersOf(members, trainerId), classId);
      && r.Keys == members.Keys
      && (forall id :: id in members ==> r[id].(classId := members[id].classId) == members[id])
      && (forall id :: id in members && members[id].trainerId == trainerId ==> r[id].classId == Some(classId))
      && (forall id :: id in members && members[id].trainerId != trainerId ==> r[id] == members[id])
  {
  }

  /**
   * "Add Member": the BMI is computed first and a height of 0 raises a
   * division by zero, so nothing is inserted; otherwise refuse an email the
   * login table already holds, or add a Member login and a member row. The
   * insert does not name the status column, so the row gets the column's
   * default, which is a parameter here.
   */
  method AddMember(s: Store, email: string, trainerId: int, schemeId: int, height: real, defaultStatus: Status)
    returns (r: Result<int, Error>)
    requires s.Valid()
    modifies s`logins, s`members, s`nextMemberId
    ensures s.Valid()
    ensures height == 0.0 ==>
      r == Failure(ZeroHeight) && s.logins == old(s.logins) && s.members == old(s.members)
      && s.nextMemberId == old(s.nextMemberId)
    ensures height != 0.0 && email in old(s.logins) ==>
      r == Failure(EmailExists) && s.logins == old(s.logins) && s.members == old(s.members)
      && s.nextMemberId == old(s.nextMemberId)
    ensures height != 0.0 && email !in old(s.logins) ==>
      && r == Success(old(s.nextMemberId)) && r.value !in old(s.members)
      && s.logins == old(s.logins)[email := MemberLogin]
      && s.members == old(s.members)[r.value := NewMember(email, trainerId, schemeId, defaultStatus)]
      && s.members[r.value].status == defaultStatus && !HasClass(s.members[r.value])
      && s.members[r.value].paymentId.None? && s.members[r.value].lastPaymentDate.None?
      && s.nextMemberId == old(s.nextMemberId) + 1
  {
    if height == 0.0 {
      return Failure(ZeroHeight);
    }
    if email in s.logins {
      return Failure(EmailExists);
    }
    var memberId := s.nextMemberId;
    s.logins := s.logins[email := MemberLogin];
    s.members := s.members[memberId := NewMember(email, trainerId, schemeId, defaultStatus)];
    s.nextMemberId := s.nextMemberId + 1;
    r := Success(memberId);
  }
}

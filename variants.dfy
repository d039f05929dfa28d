/**
 * Where the two variants of the application agree and where they differ,
 * stated over the same tables.
 */
module Variants {
  import opened Wrappers
  import opened Tables
  import GymManagement
  import GymStreamlit

  /**
   * The first variant schedules a class for a subset of the members the
   * second one reaches: the difference is exactly the trainer's members
   * that are not Active.
   */
  lemma ScheduleTargetsNest(members: map<int, Member>, trainerId: int)
    ensures GymManagement.ActiveMembersOf(members, trainerId) <= GymStreamlit.MembersOf(members, trainerId)
    ensures forall id :: id in GymStreamlit.MembersOf(members, trainerId) - GymManagement.ActiveMembersOf(members, trainerId) <==>
      id in members && members[id].trainerId == trainerId && members[id].status != Active
  {
  }

  /**
   * After scheduling, the two variants' member tables agree on every row
   * except the trainer's members that are not Active, which only the second
   * variant moves to the new class.
   */
  lemma ScheduledTablesDiffer(members: map<int, Member>, trainerId: int, classId: int)
    ensures var v1 := SetClass(members, GymManagement.ActiveMembersOf(members, trainerId), classId);
      var v2 := SetClass(members, GymStreamlit.MembersOf(members, trainerId), classId);
      && v1.Keys == v2.Keys == members.Keys
      && (forall id :: id in members && !(members[id].trainerId == trainerId && members[id].status != Active) ==> v1[id] == v2[id])
      && (forall id :: id in members && members[id].trainerId == trainerId && members[id].status != Active ==>
            v1[id] == members[id] && v2[id].classId == Some(classId))
  {
  }

  /**
   * Both variants link the payment to the member; only the first also
   * records the date and makes the member Active.
   */
  lemma PaymentEffectsDiffer(members: map<int, Member>, memberId: int, paymentId: int, today: Date)
    requires memberId in members
    ensures var v1 := GymManagement.RecordPayment(members, memberId, paymentId, today);
      var v2 := GymStreamlit.LinkPayment(members, memberId, paymentId);
      && v1[memberId].paymentId == v2[memberId].paymentId == Some(paymentId)
      && v1[memberId].status == Active && v2[memberId].status == members[memberId].status
      && v1[memberId].lastPaymentDate == Some(today) && v2[memberId].lastPaymentDate == members[memberId].lastPaymentDate
      && (forall id :: id in members && id != memberId ==> v1[id] == v2[id] == members[id])
  {
  }

  /**
   * In the second variant a payment leaves an Inactive member Inactive,
   * although the first variant's rule, applied to the same payment table,
   * makes that member Active.
   */
  lemma SecondVariantLeavesStatusStale(members: map<int, Member>, payments: seq<Payment>, p: Payment, today: Date)
    requires forall i :: 0 <= i < |payments| ==> ValidDate(payments[i].date)
    requires ValidDate(today) && p.date == today
    requires p.memberId in members && members[p.memberId].status == Inactive
    ensures GymStreamlit.LinkPayment(members, p.memberId, p.id)[p.memberId].status == Inactive
    ensures GymManagement.Evaluate(payments + [p], p.memberId, today).0 == Active
    ensures GymManagement.RecordPayment(members, p.memberId, p.id, today)[p.memberId].status ==
            GymManagement.Evaluate(payments + [p], p.memberId, today).0
  {
    GymManagement.PaidTodayIsActive(payments, p, today);
  }

  /** An Active member with an assigned class sees the same class in both variants. */
  lemma ClassViewsAgreeOnAssignedClass(m: Member, classes: seq<Class>, today: Date)
    requires m.status == Active && HasClass(m)
    ensures GymManagement.ClassView(m, classes, today) == GymStreamlit.ClassView(m, classes)
  {
  }

  /**
   * A member who is not Active gets a warning in the first variant, while
   * the second shows a class whenever the trainer has one.
   */
  lemma ClassViewsDifferOnInactive(m: Member, classes: seq<Class>, today: Date)
    requires m.status != Active && !HasClass(m)
    requires exists i :: 0 <= i < |classes| && classes[i].trainerId == m.trainerId
    ensures GymManagement.ClassView(m, classes, today) == InactiveWarning
    ensures GymStreamlit.ClassView(m, classes).ShowClass?
  {
  }

  /**
   * Without an assigned class the first variant shows the trainer's next
   * class from today on; the second shows the latest one, which may lie
   * further ahead or in the past.
   */
  lemma FallbackClassesDiffer()
    ensures var m := NewMember("a@gym", 3, 1, Active);
      var past := Class(1, 3, Date(2024, 1, 10), 5);
      var next := Class(2, 3, Date(2024, 3, 1), 6);
      var later := Class(3, 3, Date(2024, 5, 1), 7);
      && GymManagement.ClassView(m, [past, next, later], Date(2024, 2, 1)) == ShowClass(next)
      && GymStreamlit.ClassView(m, [past, next, later]) == ShowClass(later)
      && GymManagement.ClassView(m, [past], Date(2024, 2, 1)) == NoClassScheduled
      && GymStreamlit.ClassView(m, [past]) == ShowClass(past)
  {
    var past := Class(1, 3, Date(2024, 1, 10), 5);
    var next := Class(2, 3, Date(2024, 3, 1), 6);
    var later := Class(3, 3, Date(2024, 5, 1), 7);
    assert [past, next, later][..2] == [past, next];
    assert [past, next][..1] == [past];
    assert [past][..0] == [];
  }

  /**
   * A new member row is the same in both variants apart from the status
   * column: Inactive in the first, the column's default in the second. The
   * rows are equal exactly when that default is Inactive, and only a default
   * of Active lets the second variant's new member past the first variant's
   * gate.
   */
  lemma NewMembersDifferInStatusOnly(email: string, trainerId: int, schemeId: int, defaultStatus: Status,
                                     classes: seq<Class>, today: Date)
    ensures NewMember(email, trainerId, schemeId, Inactive).(status := defaultStatus) ==
            NewMember(email, trainerId, schemeId, defaultStatus)
    ensures NewMember(email, trainerId, schemeId, Inactive) == NewMember(email, trainerId, schemeId, defaultStatus)
            <==> defaultStatus == Inactive
    ensures GymManagement.ClassView(NewMember(email, trainerId, schemeId, defaultStatus), classes, today) == InactiveWarning
            <==> defaultStatus != Active
  {
  }
}

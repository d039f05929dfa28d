/**
 * The rows of the gym database that the membership workflows read and
 * write, and the in-memory store that stands in for the MySQL tables
 * `member`, `payment`, `classes` and `login`.
 */
module Tables {
  import opened Wrappers

  /** A value of a SQL DATE column. */
  datatype Date = Date(year: int, month: int, day: int)

  predicate IsLeapYear(y: int) {
    y % 4 == 0 && (y % 100 != 0 || y % 400 == 0)
  }

  function DaysInMonth(y: int, m: int): (n: int)
    requires 1 <= m <= 12
    ensures 28 <= n <= 31
  {
    if m == 2 then (if IsLeapYear(y) then 29 else 28)
    else if m == 4 || m == 6 || m == 9 || m == 11 then 30
    else 31
  }

  /** A date the calendar (and Python's `datetime.date`) can produce. */
  predicate ValidDate(d: Date) {
    1 <= d.year <= 9999 && 1 <= d.month <= 12 && 1 <= d.day <= DaysInMonth(d.year, d.month)
  }

  /** The order of DATE values: by year, then month, then day. */
  predicate DateLe(a: Date, b: Date) {
    a.year < b.year ||
    (a.year == b.year && (a.month < b.month || (a.month == b.month && a.day <= b.day)))
  }

  /** `membership_status`; `Unset` is a NULL in that column. */
  datatype Status = Active | Inactive | Unset

  /** The `category` column of `login`. */
  datatype Category = MemberLogin | TrainerLogin | AdminLogin

  /** The payment methods the payment form offers. */
  datatype PayMethod = Cash | Card | Upi

  /** Why a workflow refused to act. */
  datatype Error = MemberNotFound | EmailExists | NoSchemeFee | ZeroHeight

  /** A `member` row, restricted to the columns the workflows use. */
  datatype Member = Member(
    email: string,
    trainerId: int,
    schemeId: int,
    classId: Option<int>,
    paymentId: Option<int>,
    lastPaymentDate: Option<Date>,
    status: Status)

  /** A `payment` row. */
  datatype Payment = Payment(id: int, memberId: int, amount: int, date: Date, payMethod: PayMethod)

  /** A `classes` row. */
  datatype Class = Class(id: int, trainerId: int, date: Date, workoutId: int)

  /** What the "Upcoming Class" tab shows. */
  datatype ClassView = InactiveWarning | ShowClass(c: Class) | NoClassScheduled

  /**
   * Whether `member[13]`, the class id, is truthy in Python: a NULL column
   * and a class id of 0 both count as "no class assigned".
   */
  predicate HasClass(m: Member) {
    m.classId.Some? && m.classId.value != 0
  }

  /**
   * The row the admin "Add Member" insert creates: the columns it names,
   * and NULL for class, payment id and last payment date.
   */
  function NewMember(email: string, trainerId: int, schemeId: int, status: Status): Member
  {
    Member(email, trainerId, schemeId, None, None, None, status)
  }

  /**
   * `SELECT ... FROM classes WHERE class_id = %s`: the class with that id,
   * if the table holds one.
   */
  function ClassById(classes: seq<Class>, id: int): (r: Option<Class>)
    ensures r.None? <==> forall i :: 0 <= i < |classes| ==> classes[i].id != id
    ensures r.Some? ==> r.value in classes && r.value.id == id
  {
    if |classes| == 0 then None
    else if classes[0].id == id then Some(classes[0])
    else ClassById(classes[1..], id)
  }

  /**
   * `UPDATE member SET class_id = %s WHERE ...`: the rows whose ids are in
   * `targets` get the class id; every other row is left as it was.
   */
  function SetClass(members: map<int, Member>, targets: set<int>, classId: int): map<int, Member>
  {
    map id | id in members :: if id in targets then members[id].(classId := Some(classId)) else members[id]
  }

  /**
   * The database tables the membership workflows touch, with one
   * AUTO_INCREMENT counter per table: the next id that table hands out,
   * which is what `LAST_INSERT_ID()` returns after an insert.
   */
  class Store {
    var members: map<int, Member>
    var payments: seq<Payment>
    var classes: seq<Class>
    var logins: map<string, Category>
    var nextMemberId: int
    var nextPaymentId: int
    var nextClassId: int

    /**
     * Every id handed out so far is positive and below its table's counter,
     * so the counter's value is a fresh id; payment and class ids increase
     * along their tables; every stored payment date is a real date.
     */
    ghost predicate Valid()
      reads this
    {
      && 1 <= nextMemberId && 1 <= nextPaymentId && 1 <= nextClassId
      && (forall id :: id in members ==> 1 <= id < nextMemberId)
      && (forall i :: 0 <= i < |payments| ==> 1 <= payments[i].id < nextPaymentId && ValidDate(payments[i].date))
      && (forall i, j :: 0 <= i < j < |payments| ==> payments[i].id < payments[j].id)
      && (forall i :: 0 <= i < |classes| ==> 1 <= classes[i].id < nextClassId)
      && (forall i, j :: 0 <= i < j < |classes| ==> classes[i].id < classes[j].id)
    }

    /** An empty database. */
    constructor ()
      ensures Valid()
      ensures members == map[] && payments == [] && classes == [] && logins == map[]
      ensures nextMemberId == 1 && nextPaymentId == 1 && nextClassId == 1
    {
      members, payments, classes, logins := map[], [], [], map[];
      nextMemberId, nextPaymentId, nextClassId := 1, 1, 1;
    }
  }

  /** Class ids are unique under `Valid`, so looking one up finds that row. */
  lemma {:induction false} ClassByIdFindsUnique(classes: seq<Class>, k: int)
    requires forall i, j :: 0 <= i < j < |classes| ==> classes[i].id < classes[j].id
    requires 0 <= k < |classes|
    ensures ClassById(classes, classes[k].id) == Some(classes[k])
  {
    if k > 0 {
      assert classes[0].id < classes[k].id;
      ClassByIdFindsUnique(classes[1..], k - 1);
    }
  }
}

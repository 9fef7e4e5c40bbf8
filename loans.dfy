/** Loan rules shared by the three borrowing screens: time arithmetic on dates,
    the loan period and renewal limit, and the status labels of the user views.

    A calendar date ("2024-12-15") is a day number counted from the epoch; an
    instant is a millisecond timestamp, as `Date.getTime()` returns. A date
    string read by `new Date(...)` is midnight UTC of its day. */
module Loans {

  const MsPerHour: int := 1000 * 60 * 60
  const MsPerDay: int := 1000 * 60 * 60 * 24

  /** Renewing extends a loan by thirty days. */
  const LoanPeriodDays: int := 30

  /** The renewal limit the user views hard-code. */
  const UserMaxRenewals: int := 2

  /** `Math.ceil(a / b)` for a positive divisor. */
  function CeilDiv(a: int, b: int): (r: int)
    requires b > 0
    ensures b * (r - 1) < a <= b * r
  {
    var q := (-a) / b;
    assert b * q <= -a < b * q + b;
    -q
  }

  /** `Math.floor(a / b)` for a positive divisor. */
  function FloorDiv(a: int, b: int): (r: int)
    requires b > 0
    ensures b * r <= a < b * (r + 1)
  {
    a / b
  }

  /** The first instant of a day. */
  function StartOfDay(day: int): int {
    day * MsPerDay
  }

  /** Earlier days begin earlier. */
  lemma StartOfDayOrder(x: int, y: int)
    ensures StartOfDay(x) <= StartOfDay(y) <==> x <= y
  {
    if x > y {
      assert StartOfDay(x) - StartOfDay(y) == (x - y) * MsPerDay;
    } else {
      assert StartOfDay(y) - StartOfDay(x) == (y - x) * MsPerDay;
    }
  }

  /** `new Date().toISOString().split('T')[0]`: the UTC day an instant falls in. */
  function Today(nowMs: int): (day: int)
    ensures StartOfDay(day) <= nowMs < StartOfDay(day + 1)
  {
    FloorDiv(nowMs, MsPerDay)
  }

  /** `getDaysUntilDue`: the time left until the due date, in days, rounded up. */
  function DaysUntilDue(dueDay: int, nowMs: int): (days: int)
    ensures (days - 1) * MsPerDay < StartOfDay(dueDay) - nowMs <= days * MsPerDay
  {
    CeilDiv(StartOfDay(dueDay) - nowMs, MsPerDay)
  }

  /** A loan due n days after today has exactly n days left, whatever the time of day:
      a loan renewed to today + 30 shows 30 days, one due on 2024-11-10 seen on
      2024-12-20 shows -40. */
  lemma DaysUntilDueFromToday(nowMs: int, n: int)
    ensures DaysUntilDue(Today(nowMs) + n, nowMs) == n
  {
    var t := Today(nowMs);
    var d := DaysUntilDue(t + n, nowMs);
    assert StartOfDay(t + n) == StartOfDay(t) + n * MsPerDay;
    assert StartOfDay(t + 1) == StartOfDay(t) + MsPerDay;
    assert (d - 1) * MsPerDay < n * MsPerDay by {
      assert (d - 1) * MsPerDay < StartOfDay(t + n) - nowMs;
    }
    assert n * MsPerDay - MsPerDay < d * MsPerDay by {
      assert StartOfDay(t + n) - nowMs <= d * MsPerDay;
    }
  }

  /** The count of days left is negative exactly when a full day has passed
      since the due date began. */
  lemma DaysUntilDueNegative(dueDay: int, nowMs: int)
    ensures DaysUntilDue(dueDay, nowMs) < 0 <==> nowMs >= StartOfDay(dueDay + 1)
  {
    var d := DaysUntilDue(dueDay, nowMs);
    assert StartOfDay(dueDay + 1) == StartOfDay(dueDay) + MsPerDay;
    if d < 0 {
      assert d * MsPerDay <= -MsPerDay;
    }
  }

  /** The status of a loan in the end-user views. */
  datatype UserStatus = Active | Overdue | Returned {
    /** The string the record carries. */
    function Name(): string {
      match this
      case Active => "active"
      case Overdue => "overdue"
      case Returned => "returned"
    }
  }

  const Unknown: string := "Inconnu"

  /** `getStatusText`: the French label of a status string; anything that is
      not one of the three statuses is "Inconnu". */
  function StatusText(status: string): (text: string)
    ensures text == Unknown <==> status !in {"active", "overdue", "returned"}
    ensures status == "active" ==> text == "En cours"
    ensures status == "overdue" ==> text == "En retard"
    ensures status == "returned" ==> text == "Retourné"
  {
    match status
    case "active" => "En cours"
    case "overdue" => "En retard"
    case "returned" => "Retourné"
    case _ => Unknown
  }

  /** Every status a record can carry has its own label. */
  lemma StatusTextInjective(s: UserStatus, t: UserStatus)
    ensures StatusText(s.Name()) != Unknown
    ensures StatusText(s.Name()) == StatusText(t.Name()) ==> s == t
  {
  }
}

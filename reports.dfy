/** The reports page: the colour band of a course's attendance percentage
    and the direction of its trend icon. */
module Reports {
  datatype Band = Green | Blue | Yellow | Red

  /** `getAttendanceColor`: the first threshold the percentage reaches. */
  function AttendanceBand(p: real): (b: Band)
    ensures b == Green <==> p >= 90.0
    ensures b == Blue <==> 75.0 <= p < 90.0
    ensures b == Yellow <==> 60.0 <= p < 75.0
    ensures b == Red <==> p < 60.0
  {
    if p >= 90.0 then Green
    else if p >= 75.0 then Blue
    else if p >= 60.0 then Yellow
    else Red
  }

  /** The gradient classes of each band. */
  function BandClasses(b: Band): string
  {
    match b
    case Green => "from-green-500 to-emerald-600"
    case Blue => "from-blue-500 to-indigo-600"
    case Yellow => "from-yellow-500 to-orange-500"
    case Red => "from-red-500 to-rose-600"
  }

  datatype Trend = Up | Down

  /** `getAttendanceIcon`. */
  function AttendanceTrend(p: real): (t: Trend)
    ensures t == Up <==> p >= 75.0
  {
    if p >= 75.0 then Up else Down
  }

  /** The icon points up exactly on the green and blue bands. */
  lemma {:induction false} TrendFollowsBand(p: real)
    ensures AttendanceTrend(p) == Up <==> AttendanceBand(p) in {Green, Blue}
  {
  }

  /** A higher percentage never lands in a worse band. */
  lemma {:induction false} BandMonotone(p: real, q: real)
    requires p <= q
    ensures Rank(AttendanceBand(p)) <= Rank(AttendanceBand(q))
  {
  }

  /** Red is worst, green best. */
  function Rank(b: Band): nat
  {
    match b
    case Red => 0
    case Yellow => 1
    case Blue => 2
    case Green => 3
  }

  /** Each band has its own classes. */
  lemma {:induction false} ClassesDistinct(a: Band, b: Band)
    requires a != b
    ensures BandClasses(a) != BandClasses(b)
  {
    assert BandClasses(a)[5] != BandClasses(b)[5];
  }
}

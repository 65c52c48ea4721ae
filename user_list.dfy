/** The paginated user table (src/components/users/UserList.jsx): the
    pagination state, the "Mostrando a–b de n" window, the two page buttons and
    the state a fetch leaves. `total` is whatever the user service returned,
    so the window arithmetic follows JavaScript for a missing total (NaN). */
module UserList {
  import opened Wrappers
  import Js

  datatype Pagination = Pagination(page: int, limit: int, total: Js.Value)

  /** `useState({page: 1, limit: 10, total: 0})` */
  const Initial: Pagination := Pagination(1, 10, Js.Num(0))

  /** The component's state: the rows, the spinner flag, the error shown
      (`None` for none; the alert shows its message) and the pagination. */
  datatype View = View(users: Js.Value, loading: bool, error: Option<Js.Exception>, pagination: Pagination)

  const InitialView: View := View(Js.Arr([]), true, None, Initial)

  /** The first row number shown: one past the rows of the earlier pages. */
  function From(p: Pagination): (n: int)
    ensures n - 1 == (p.page - 1) * p.limit
  {
    (p.page - 1) * p.limit + 1
  }

  /** `Math.min(page * limit, total)`; `None` is NaN, which a total that is
      not a number yields. */
  function To(p: Pagination): (t: Option<int>)
    ensures t.Some? <==> Js.ToNumber(p.total).Some?
    ensures t.Some? ==>
              t.value <= Js.ToNumber(p.total).value && t.value <= p.page * p.limit &&
              (t.value == Js.ToNumber(p.total).value || t.value == p.page * p.limit)
  {
    match Js.ToNumber(p.total)
    case None => None
    case Some(total) => Some(if p.page * p.limit < total then p.page * p.limit else total)
  }

  /** "Anterior" is disabled on the first page. */
  predicate PreviousDisabled(p: Pagination) {
    p.page == 1
  }

  /** "Siguiente" is disabled once the current page reaches the total; a
      comparison with NaN is false, so a missing total leaves it enabled. */
  predicate NextDisabled(p: Pagination) {
    Js.ToNumber(p.total).Some? && p.page * p.limit >= Js.ToNumber(p.total).value
  }

  /** `handlePageChange(newPage)`: only the page changes. */
  function HandlePageChange(p: Pagination, newPage: int): (q: Pagination)
    ensures q.page == newPage && q.limit == p.limit && q.total == p.total
  {
    p.(page := newPage)
  }

  /** `fetchUsers()` settled with `reply`: the rows become `data || []` and the
      total the response's `total`, leaving page and limit; destructuring an
      undefined or null response throws a TypeError, which is caught like a
      rejection and shown, leaving the rows and the pagination alone. The
      spinner is off afterwards in every case. */
  function FetchUsers(v: View, reply: Result<Js.Value, Js.Exception>): (w: View)
    ensures !w.loading
    ensures w.pagination.page == v.pagination.page && w.pagination.limit == v.pagination.limit
    ensures reply.Success? && !Js.Nullish(reply.value) ==>
              w.users == Js.Or(Js.Prop(reply.value, "data").value, Js.Arr([])) &&
              w.pagination.total == Js.Prop(reply.value, "total").value && w.error == v.error
    ensures reply.Failure? ==> w.error == Some(reply.error) && w.users == v.users && w.pagination == v.pagination
    ensures reply.Success? && Js.Nullish(reply.value) ==>
              w.error == Some(Js.TypeError) && w.users == v.users && w.pagination == v.pagination
  {
    match reply
    case Failure(e) => v.(loading := false, error := Some(e))
    case Success(response) =>
      match Js.Prop(response, "data")
      case Failure(e) => v.(loading := false, error := Some(e))
      case Success(data) =>
        var total := Js.Prop(response, "total").value;
        v.(users := Js.Or(data, Js.Arr([])), loading := false, pagination := v.pagination.(total := total))
  }

  /** The initial window: "Mostrando 1 a 0 de 0", both buttons disabled. */
  lemma InitialWindow()
    ensures From(Initial) == 1 && To(Initial) == Some(0)
    ensures PreviousDisabled(Initial) && NextDisabled(Initial)
  {
  }

  /** When "Siguiente" is enabled the next page starts within the total, right
      after the last row of this page. */
  lemma NextPageStartsWithinTotal(p: Pagination)
    requires !NextDisabled(p) && Js.ToNumber(p.total).Some?
    ensures var next := HandlePageChange(p, p.page + 1);
            From(next) <= Js.ToNumber(p.total).value && From(next) == To(p).value + 1
  {
    var next := HandlePageChange(p, p.page + 1);
    assert (next.page - 1) * p.limit == p.page * p.limit;
  }

  datatype Button = Previous | Next

  /** A click: a disabled button does nothing, an enabled one moves one page. */
  function Click(p: Pagination, b: Button): Pagination {
    match b
    case Previous => if PreviousDisabled(p) then p else HandlePageChange(p, p.page - 1)
    case Next => if NextDisabled(p) then p else HandlePageChange(p, p.page + 1)
  }

  /** A sequence of clicks, with the total fixed. */
  function Clicks(p: Pagination, bs: seq<Button>): Pagination
    decreases |bs|
  {
    if |bs| == 0 then p else Clicks(Click(p, bs[0]), bs[1..])
  }

  /** The page is at least 1 and, for a positive total, starts before its end. */
  predicate PageInRange(p: Pagination) {
    p.page >= 1 && p.limit == 10 &&
    (Js.ToNumber(p.total).Some? && Js.ToNumber(p.total).value > 0 ==> (p.page - 1) * p.limit < Js.ToNumber(p.total).value)
  }

  lemma ClickKeepsPageInRange(p: Pagination, b: Button)
    requires PageInRange(p)
    ensures PageInRange(Click(p, b)) && Click(p, b).total == p.total
  {
  }

  /** From the first page, with any fixed total, enabled clicks keep the page
      at 1 or more and, for a positive total, its first row within the total. */
  lemma {:induction false} ClicksKeepPageInRange(total: Js.Value, bs: seq<Button>)
    ensures PageInRange(Clicks(Initial.(total := total), bs))
  {
    ClicksFrom(Initial.(total := total), bs);
  }

  lemma {:induction false} ClicksFrom(p: Pagination, bs: seq<Button>)
    requires PageInRange(p)
    ensures PageInRange(Clicks(p, bs))
    decreases |bs|
  {
    if |bs| > 0 {
      ClickKeepsPageInRange(p, bs[0]);
      ClicksFrom(Click(p, bs[0]), bs[1..]);
    }
  }
}

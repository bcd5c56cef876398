/** What a handler sees of a request and what it answers with. View rendering,
    flash transport and cookies are reduced to these values. */
module Http {
  import opened Models

  /** A request as the session middleware leaves it: `user` is present exactly
      when the request is authenticated. */
  datatype Request = Request(user: Option<Identity>)
  {
    predicate IsAuthenticated()
    {
      user.Some?
    }
  }

  /** Redirect targets: `/`, the referring page, `/admin-dashboard` and
      `/employee-dashboard/<id>`. */
  datatype Path = Home | Back | AdminDashboard | EmployeeDashboard(id: UserId)

  datatype View = SignInForm | SignUpForm | AddEmployeeForm | EditEmployeeForm(employee: Identity)

  datatype Response = Render(view: View) | Redirect(to: Path)

  /** A one-shot flash notice of kind success or error. */
  datatype Notice = Success(message: string) | Error(message: string)

  /** A handler's answer: the flash notice it set, if any, and the response. */
  datatype Reply = Reply(notice: Option<Notice>, response: Response)

  /** What a middleware does with a request: pass it on to the next handler,
      or answer it itself. */
  datatype Gate = CallNext | Halt(response: Response)
}

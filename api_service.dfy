/**
 * utils/APIService.java: user registration through the storefront's HTTP endpoint, with
 * one retry under a new email when the first email is already taken.
 *
 * The HTTP layer is abstracted: a POST is recorded in the service's call log, and the
 * server's reply is given by a function of the attempt number and the form sent. The
 * clock reading used to make the new email unique is a parameter.
 */
module Api {
  import opened Wrappers
  import opened JavaText
  import opened Models

  /** The relative path every registration POST goes to. */
  const RegisterPath := "index.php?route=account/register"
  /** The marker a successful registration's redirect target contains. */
  const SuccessRoute := "route=account/success"
  /** The marker of the page that rejects an email that is already in use. */
  const AlreadyRegistered := "E-Mail Address is already registered"
  /** The loop bound: at most this many POSTs per call. */
  const MaxAttempts: nat := 2

  /** The form fields of one registration POST. */
  datatype RegistrationForm = RegistrationForm(
    firstname: string,
    lastname: string,
    email: string,
    telephone: string,
    password: string,
    confirm: string,
    agree: string)

  /** A POST as issued: path, form, and the redirect limit (0: redirects are not followed). */
  datatype Request = Post(path: string, form: RegistrationForm, maxRedirects: nat)

  /** What has been done through the service's request context. */
  datatype Call = Send(request: Request) | Dispose

  /** The parts of an HTTP response the routine reads. */
  datatype Response = Response(status: nat, statusText: string, location: Option<string>, body: string)

  /** The RuntimeExceptions the routine throws, one per terminal branch. */
  datatype RegistrationError =
    | UnexpectedRedirect(location: Option<string>)
    | ApiError(status: nat, statusText: string, body: string)
    | EmailCollision(attempts: nat)
    | ValidationError(body: string)

  const RedirectPrefix := "Registration redirected unexpectedly to: "
  const ApiErrorPrefix := "API Error "
  /** The start the two "could not register" messages share. */
  const FailedToRegister := "Failed to register user "
  const CollisionPrefix := FailedToRegister + "after "
  const ValidationPrefix := FailedToRegister + "via API. " + "Response implies validation error. \nBody: "

  /** The exception's message; a null location prints as "null". */
  function Message(e: RegistrationError): string {
    match e
    case UnexpectedRedirect(location) =>
      RedirectPrefix + (match location case None => "null" case Some(l) => l)
    case ApiError(status, statusText, body) =>
      ApiErrorPrefix + NatToString(status) + ": " + statusText + "\nBody: " + body
    case EmailCollision(attempts) =>
      CollisionPrefix + NatToString(attempts) + " attempts. Email collision."
    case ValidationError(body) =>
      ValidationPrefix + body
  }

  /** The form built from the user's current fields. */
  function FormFor(u: UserData): (f: RegistrationForm)
    ensures f.email == u.email
    ensures f.password == u.password && f.confirm == u.password
    ensures f.agree == "1"
  {
    RegistrationForm(u.firstName, u.lastName, u.email, u.telephone, u.password, u.password, "1")
  }

  /** The POST of one attempt. */
  function RequestFor(u: UserData): Request {
    Post(RegisterPath, FormFor(u), 0)
  }

  /** The email tried after a collision: every '@' becomes "_" + millis + "@". */
  function CollisionEmail(email: string, millis: nat): string {
    ReplaceChar(email, '@', "_" + NatToString(millis) + "@")
  }

  /** How one attempt ends. */
  datatype Step = Registered | Retry | Failed(error: RegistrationError)

  /** The decision taken on the response of attempt `attempt`: only 302 counts as a
      redirect, only 200 is read for validation messages, and only the first attempt may
      retry. */
  function Classify(response: Response, attempt: nat): (s: Step)
    ensures s == Registered <==>
      response.status == 302 && response.location.Some? && Contains(response.location.value, SuccessRoute)
    ensures s == Retry <==>
      response.status == 200 && Contains(response.body, AlreadyRegistered) && attempt < MaxAttempts
    ensures response.status == 302 && s.Failed? ==> s.error == UnexpectedRedirect(response.location)
    ensures response.status != 302 && response.status != 200 ==>
      s == Failed(ApiError(response.status, response.statusText, response.body))
    ensures response.status == 200 && Contains(response.body, AlreadyRegistered) && attempt >= MaxAttempts ==>
      s == Failed(EmailCollision(attempt))
    ensures response.status == 200 && !Contains(response.body, AlreadyRegistered) ==>
      s == Failed(ValidationError(response.body))
  {
    if response.status == 302 then
      match response.location
      case Some(l) => if Contains(l, SuccessRoute) then Registered else Failed(UnexpectedRedirect(response.location))
      case None => Failed(UnexpectedRedirect(None))
    else if response.status != 200 then
      Failed(ApiError(response.status, response.statusText, response.body))
    else if Contains(response.body, AlreadyRegistered) then
      if attempt < MaxAttempts then Retry else Failed(EmailCollision(attempt))
    else
      Failed(ValidationError(response.body))
  }

  /** The server: its reply to the POST of a given attempt carrying a given form. */
  type Server = (nat, RegistrationForm) -> Response

  /** What a call to `registerUser` amounts to: how it ends, the user's fields afterwards,
      and the POSTs it issued. */
  datatype Registration = Registration(outcome: Outcome<RegistrationError>, user: UserData, requests: seq<Request>)

  /** The registration from attempt `attempt` on, for a user whose fields are `u`. */
  function RegisterFrom(u: UserData, attempt: nat, server: Server, millis: nat): Registration
    requires 1 <= attempt <= MaxAttempts
    decreases MaxAttempts - attempt
  {
    var request := RequestFor(u);
    match Classify(server(attempt, request.form), attempt)
    case Registered => Registration(Pass, u, [request])
    case Failed(e) => Registration(Fail(e), u, [request])
    case Retry =>
      var rest := RegisterFrom(u.(email := CollisionEmail(u.email, millis)), attempt + 1, server, millis);
      rest.(requests := [request] + rest.requests)
  }

  /** The whole call. */
  function Register(u: UserData, server: Server, millis: nat): Registration {
    RegisterFrom(u, 1, server, millis)
  }

  /** One attempt of the registration, unfolded. */
  lemma RegisterFromStep(u: UserData, attempt: nat, server: Server, millis: nat)
    requires 1 <= attempt <= MaxAttempts
    ensures var step := Classify(server(attempt, FormFor(u)), attempt);
      var r := RegisterFrom(u, attempt, server, millis);
      (step == Registered ==> r == Registration(Pass, u, [RequestFor(u)])) &&
      (step.Failed? ==> r == Registration(Fail(step.error), u, [RequestFor(u)])) &&
      (step == Retry ==>
         attempt < MaxAttempts &&
         var rest := RegisterFrom(u.(email := CollisionEmail(u.email, millis)), attempt + 1, server, millis);
         r == rest.(requests := [RequestFor(u)] + rest.requests))
  {
  }

  /** What is left of a registration once the POSTs in `sent` have been issued and the loop is
      at `attempt` with the user's fields `u`: the rest of the run is `RegisterFrom` from there. */
  ghost predicate Remaining(whole: Registration, sent: seq<Request>, u: UserData, attempt: nat,
                            server: Server, millis: nat)
    requires 1 <= attempt <= MaxAttempts
  {
    var rest := RegisterFrom(u, attempt, server, millis);
    whole.outcome == rest.outcome && whole.user == rest.user && whole.requests == sent + rest.requests
  }

  /** One pass of the registration loop, seen from the whole run: a final reply ends the run
      with this POST as the last one, a collision on the first attempt leaves the rest of the
      run to the next attempt under the new email. */
  lemma LoopStep(whole: Registration, sent: seq<Request>, u: UserData, attempt: nat, server: Server, millis: nat)
    requires 1 <= attempt <= MaxAttempts
    requires Remaining(whole, sent, u, attempt, server, millis)
    ensures var step := Classify(server(attempt, FormFor(u)), attempt);
      (step == Registered ==> whole == Registration(Pass, u, sent + [RequestFor(u)])) &&
      (step.Failed? ==> whole == Registration(Fail(step.error), u, sent + [RequestFor(u)])) &&
      (step == Retry ==>
         attempt < MaxAttempts &&
         Remaining(whole, sent + [RequestFor(u)], u.(email := CollisionEmail(u.email, millis)), attempt + 1, server, millis))
  {
    RegisterFromStep(u, attempt, server, millis);
  }

  /** Every registration issues one or two POSTs, each to the registration path with redirects
      off and a form whose confirmation repeats the password and whose policy box is ticked.
      The first carries the user's fields as given; the user's fields end up either unchanged
      or with only the email rewritten as after a collision, and the last POST carries exactly
      the fields the user ends with, so the caller holds the email that was registered. */
  lemma RegisterShape(u: UserData, server: Server, millis: nat)
    ensures var r := Register(u, server, millis);
      1 <= |r.requests| <= MaxAttempts &&
      r.requests[0] == RequestFor(u) &&
      r.requests[|r.requests| - 1] == RequestFor(r.user) &&
      (|r.requests| == 1 ==> r.user == u) &&
      (|r.requests| == 2 ==> r.user == u.(email := CollisionEmail(u.email, millis)))
    ensures forall q | q in Register(u, server, millis).requests ::
      q.path == RegisterPath && q.maxRedirects == 0 &&
      q.form.confirm == q.form.password && q.form.agree == "1"
  {
    RegisterFromStep(u, 1, server, millis);
    var v := u.(email := CollisionEmail(u.email, millis));
    RegisterFromStep(v, 2, server, millis);
  }

  /** A collision on the first attempt is retried once under the rewritten email; one on the
      second attempt is final, and is reported as a collision after two attempts. */
  lemma DoubleCollision(u: UserData, server: Server, millis: nat)
    requires var first := server(1, FormFor(u));
      first.status == 200 && Contains(first.body, AlreadyRegistered)
    requires var second := server(2, FormFor(u.(email := CollisionEmail(u.email, millis))));
      second.status == 200 && Contains(second.body, AlreadyRegistered)
    ensures var r := Register(u, server, millis);
      r.outcome == Fail(EmailCollision(2)) &&
      r.user.email == CollisionEmail(u.email, millis) &&
      r.requests == [RequestFor(u), RequestFor(r.user)]
  {
    RegisterFromStep(u, 1, server, millis);
    RegisterFromStep(u.(email := CollisionEmail(u.email, millis)), 2, server, millis);
  }

  /** The call passes exactly when some attempt's reply is a 302 to the success route; that
      attempt is the last one made. */
  lemma PassMeansSuccessRedirect(u: UserData, server: Server, millis: nat)
    ensures var r := Register(u, server, millis);
      r.outcome == Pass <==>
        var last := server(|r.requests|, r.requests[|r.requests| - 1].form);
        last.status == 302 && last.location.Some? && Contains(last.location.value, SuccessRoute)
  {
    RegisterFromStep(u, 1, server, millis);
    RegisterFromStep(u.(email := CollisionEmail(u.email, millis)), 2, server, millis);
  }

  /** Only 302 is read as a redirect: any other status but 200 on the first attempt ends the
      call with an API error after one POST, 3xx statuses included. */
  lemma OtherStatusIsApiError(u: UserData, server: Server, millis: nat)
    requires var first := server(1, FormFor(u)); first.status != 302 && first.status != 200
    ensures var first := server(1, FormFor(u));
      Register(u, server, millis) ==
        Registration(Fail(ApiError(first.status, first.statusText, first.body)), u, [RequestFor(u)])
  {
    RegisterFromStep(u, 1, server, millis);
  }

  /** The rewritten email differs from the original exactly when the original has an '@'. */
  lemma CollisionEmailChanges(email: string, millis: nat)
    ensures '@' in email <==> CollisionEmail(email, millis) != email
    ensures '@' in email ==> |CollisionEmail(email, millis)| > |email|
  {
    var rep := "_" + NatToString(millis) + "@";
    assert |rep| > 1;
  }

  /** Each terminal branch is told apart by its message: equal messages come from the same branch. */
  lemma MessageIdentifiesBranch(e1: RegistrationError, e2: RegistrationError)
    requires Message(e1) == Message(e2)
    ensures e1.UnexpectedRedirect? <==> e2.UnexpectedRedirect?
    ensures e1.ApiError? <==> e2.ApiError?
    ensures e1.EmailCollision? <==> e2.EmailCollision?
    ensures e1.ValidationError? <==> e2.ValidationError?
  {
    MessageMarks(e1);
    MessageMarks(e2);
  }

  /** The first char of a message names its branch, and so does the 25th for the two messages
      that begin "Failed to register user ". */
  lemma MessageMarks(e: RegistrationError)
    ensures |Message(e)| > 0
    ensures Message(e)[0] == match e
      case UnexpectedRedirect(_) => 'R'
      case ApiError(_, _, _) => 'A'
      case _ => 'F'
    ensures e.EmailCollision? ==> |Message(e)| > 24 && Message(e)[24] == 'a'
    ensures e.ValidationError? ==> |Message(e)| > 24 && Message(e)[24] == 'v'
  {
    match e
    case UnexpectedRedirect(location) =>
      PrefixMark(RedirectPrefix, match location case None => "null" case Some(l) => l, 0);
    case ApiError(status, statusText, body) =>
      PrefixMark(ApiErrorPrefix, NatToString(status) + ": " + statusText + "\nBody: " + body, 0);
    case EmailCollision(attempts) =>
      PrefixMark(CollisionPrefix, NatToString(attempts) + " attempts. Email collision.", 0);
      PrefixMark(CollisionPrefix, NatToString(attempts) + " attempts. Email collision.", 24);
    case ValidationError(body) =>
      ValidationMark(body);
  }

  /** A character of a message's fixed start is the message's character at that position. */
  lemma PrefixMark(prefix: string, rest: string, i: nat)
    requires i < |prefix|
    ensures |prefix + rest| > i && (prefix + rest)[i] == prefix[i]
  {
  }

  /** Position 24 of the validation message is the 'v' of "via API". */
  lemma ValidationMark(body: string)
    ensures |Message(ValidationError(body))| > 24
    ensures Message(ValidationError(body))[0] == 'F' && Message(ValidationError(body))[24] == 'v'
  {
    var lit := "via API. ";
    var tail := lit + "Response implies validation error. \nBody: " + body;
    assert Message(ValidationError(body)) == FailedToRegister + tail;
    PrefixMark(FailedToRegister, tail, 0);
    assert tail[0] == lit[0];
  }

  /** The calls the POSTs of a run leave in the log, one send each, in order. */
  function Sends(requests: seq<Request>): seq<Call> {
    seq(|requests|, i requires 0 <= i < |requests| => Send(requests[i]))
  }

  lemma SendsSnoc(requests: seq<Request>, request: Request)
    ensures Sends(requests + [request]) == Sends(requests) + [Send(request)]
  {
    assert forall i :: 0 <= i < |requests| + 1 ==>
      Sends(requests + [request])[i] == (Sends(requests) + [Send(request)])[i];
  }

  /** The service object: a request context and the log of what was done through it. */
  class ApiService {
    const baseUrl: Option<string>
    var calls: seq<Call>

    /** Creates the request context against the configured base URL. */
    constructor (baseUrl: Option<string>)
      ensures this.baseUrl == baseUrl && calls == []
    {
      this.baseUrl := baseUrl;
      calls := [];
    }

    /** `close()`: disposes of the request context; nothing guards a second call. */
    method Close()
      modifies this
      ensures calls == old(calls) + [Dispose]
    {
      calls := calls + [Dispose];
    }

    /** `registerUser(user)`: the bounded retry loop. It ends as `Register` says, leaves the
        user's fields as `Register` says, and issues exactly the POSTs `Register` lists. */
    method RegisterUser(user: User, server: Server, millis: nat) returns (outcome: Outcome<RegistrationError>)
      modifies this, user
      ensures var r := Register(old(user.Data()), server, millis);
        outcome == r.outcome && user.Data() == r.user && calls == old(calls) + Sends(r.requests)
    {
      ghost var whole := Register(user.Data(), server, millis);
      ghost var sent: seq<Request> := [];
      var attempt: nat := 1;
      while attempt <= MaxAttempts
        invariant 1 <= attempt <= MaxAttempts
        invariant calls == old(calls) + Sends(sent)
        invariant Remaining(whole, sent, user.Data(), attempt, server, millis)
        decreases MaxAttempts - attempt
      {
        ghost var here := user.Data();
        LoopStep(whole, sent, here, attempt, server, millis);
        SendsSnoc(sent, RequestFor(here));
        var step := Attempt(user, server, attempt, millis);
        match step
        case Registered =>
          return Pass;
        case Failed(e) =>
          return Fail(e);
        case Retry =>
          attempt := attempt + 1;
          sent := sent + [RequestFor(here)];
      }
      assert false;
    }

    /** One pass of the loop body: POSTs the form built from the user's current fields, reads
        the reply, and on a first-attempt collision rewrites the user's email in place. */
    method Attempt(user: User, server: Server, attempt: nat, millis: nat) returns (step: Step)
      requires 1 <= attempt <= MaxAttempts
      modifies this, user
      ensures step == Classify(server(attempt, FormFor(old(user.Data()))), attempt)
      ensures calls == old(calls) + [Send(RequestFor(old(user.Data())))]
      ensures step == Retry ==>
        user.Data() == old(user.Data()).(email := CollisionEmail(old(user.email), millis))
      ensures step != Retry ==> user.Data() == old(user.Data())
    {
      var form := RegistrationForm(user.firstName, user.lastName, user.email, user.telephone,
                                   user.password, user.password, "1");
      calls := calls + [Send(Post(RegisterPath, form, 0))];
      var response := server(attempt, form);
      if response.status == 302 {
        var location := response.location;
        if location.Some? && Contains(location.value, SuccessRoute) {
          return Registered;
        }
        return Failed(UnexpectedRedirect(location));
      }
      if response.status != 200 {
        return Failed(ApiError(response.status, response.statusText, response.body));
      }
      var responseBody := response.body;
      if Contains(responseBody, AlreadyRegistered) {
        if attempt < MaxAttempts {
          var newEmail := ReplaceChar(user.email, '@', "_" + NatToString(millis) + "@");
          user.SetEmail(newEmail);
          return Retry;
        }
        return Failed(EmailCollision(attempt));
      }
      return Failed(ValidationError(responseBody));
    }
  }
}

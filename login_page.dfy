/**
 * pages/LoginPage.java: the login step and the verification of its outcome.
 *
 * The browser is abstracted: filling and clicking are recorded as UI actions, the
 * "wait for the My Account heading or the danger alert" is decided by the time at which
 * the first of the two signals became visible, and the checks after the wait read the
 * visibility flags and the alert's text content as observed at that moment. Each call
 * observes the page on its own; `SignalTimeline` relates two observations of one page.
 */
module Login {
  import opened Wrappers
  import opened JavaText

  /** LOGIN_OUTCOME_TIMEOUT_MS: the bound on waiting for either outcome signal. */
  const LoginOutcomeTimeoutMs: nat := 15000

  const ApplicationErrorPrefix := "Login failed with application error: "
  const NoMessage := "<no message>"
  /** The message `assertTrue(false, m)` fails with. */
  const HeadingAssertionMessage := "My Account header should be visible after login expected [true] but found [false]"

  datatype Input = EmailInput | PasswordInput

  /** The effects `login` has on the page, in the order it performs them. */
  datatype UiAction =
    | Fill(input: Input, text: string)
    | ClickLogin
    | WaitForHeadingOrAlert(timeoutMs: nat)

  /** What the page shows: when the first outcome signal became visible (None: never),
      and, after that, whether each signal is visible and the alert's text content. */
  datatype PageView = PageView(
    firstSignalAtMs: Option<nat>,
    alertVisible: bool,
    headingVisible: bool,
    alertText: Option<string>)

  /** The errors the two operations raise. */
  datatype LoginError =
    | Timeout(timeoutMs: nat)             // the locator wait gave up
    | ApplicationError(message: string)   // the danger alert was visible
    | AssertionFailed(message: string)    // the heading was not visible

  /** `myAccountHeading.or(alertDanger).waitFor(VISIBLE, timeout)`: returns once either signal
      is visible, and throws a timeout error when neither is within the bound. */
  function WaitForEither(firstSignalAtMs: Option<nat>, timeoutMs: nat): (r: Outcome<LoginError>)
    ensures r.Pass? <==> firstSignalAtMs.Some? && firstSignalAtMs.value <= timeoutMs
    ensures r.Fail? ==> r.error == Timeout(timeoutMs)
  {
    match firstSignalAtMs
    case Some(t) => if t <= timeoutMs then Pass else Fail(Timeout(timeoutMs))
    case None => Fail(Timeout(timeoutMs))
  }

  /** The message of the error raised when the alert is visible. */
  function ApplicationErrorMessage(alertText: Option<string>): (m: string)
    ensures alertText.None? ==> m == ApplicationErrorPrefix + NoMessage
    ensures alertText.Some? ==> m == ApplicationErrorPrefix + Trim(alertText.value)
  {
    ApplicationErrorPrefix + (match alertText case None => NoMessage case Some(t) => Trim(t))
  }

  /** The result of `login`: what it did to the page, and whether it returned normally. */
  datatype LoginRun = LoginRun(actions: seq<UiAction>, outcome: Outcome<LoginError>)

  /** `login(email, password)`. */
  function LoginWith(email: string, password: string, view: PageView): (r: LoginRun)
    ensures |r.actions| == 4
    ensures r.actions[0] == Fill(EmailInput, email)
    ensures r.actions[1] == Fill(PasswordInput, password)
    ensures r.actions[2] == ClickLogin
    ensures r.actions[3] == WaitForHeadingOrAlert(LoginOutcomeTimeoutMs)
    ensures r.outcome.Pass? <==> view.firstSignalAtMs.Some? && view.firstSignalAtMs.value <= 15000
  {
    LoginRun(
      [Fill(EmailInput, email), Fill(PasswordInput, password), ClickLogin,
       WaitForHeadingOrAlert(LoginOutcomeTimeoutMs)],
      WaitForEither(view.firstSignalAtMs, LoginOutcomeTimeoutMs))
  }

  /** `verifyLoginSuccess()`: waits for either signal, then fails on a visible alert before it
      looks at the heading, and passes exactly when the heading is visible. */
  function VerifyLoginSuccess(view: PageView): (r: Outcome<LoginError>)
    ensures WaitForEither(view.firstSignalAtMs, LoginOutcomeTimeoutMs).Fail? ==>
      r == Fail(Timeout(15000))
    ensures WaitForEither(view.firstSignalAtMs, LoginOutcomeTimeoutMs).Pass? ==>
      (view.alertVisible ==> r == Fail(ApplicationError(ApplicationErrorMessage(view.alertText)))) &&
      (!view.alertVisible && view.headingVisible ==> r == Pass) &&
      (!view.alertVisible && !view.headingVisible ==> r == Fail(AssertionFailed(HeadingAssertionMessage)))
  {
    match WaitForEither(view.firstSignalAtMs, LoginOutcomeTimeoutMs)
    case Fail(e) => Fail(e)
    case Pass =>
      if view.alertVisible then Fail(ApplicationError(ApplicationErrorMessage(view.alertText)))
      else if view.headingVisible then Pass
      else Fail(AssertionFailed(HeadingAssertionMessage))
  }

  /** Verification passes exactly when a signal appeared within 15 s, no alert is visible and
      the heading is; a visible alert fails it whatever the heading shows. */
  lemma VerifyPassesIff(view: PageView)
    ensures VerifyLoginSuccess(view).Pass? <==>
      view.firstSignalAtMs.Some? && view.firstSignalAtMs.value <= 15000 &&
      !view.alertVisible && view.headingVisible
    ensures view.alertVisible ==> VerifyLoginSuccess(view).Fail?
  {
  }

  /** The page over time, as the `or` locator sees it: an outcome signal becomes visible at
      `shownAtMs` and stays so until `hiddenAtMs` (None: it stays). */
  datatype SignalTimeline = SignalTimeline(shownAtMs: nat, hiddenAtMs: Option<nat>)

  predicate VisibleAt(page: SignalTimeline, t: nat) {
    page.shownAtMs <= t && (page.hiddenAtMs.None? || t < page.hiddenAtMs.value)
  }

  /** What a wait that starts at `startMs` observes: after how long a signal is visible (at
      once if it already is), or None when it never is from then on. */
  function FirstSignalAfter(page: SignalTimeline, startMs: nat): (r: Option<nat>)
    ensures r.Some? ==> VisibleAt(page, startMs + r.value)
    ensures r.Some? ==> forall t :: startMs <= t < startMs + r.value ==> !VisibleAt(page, t)
    ensures r.None? ==> forall t :: t >= startMs ==> !VisibleAt(page, t)
  {
    if VisibleAt(page, startMs) then Some(0)
    else if startMs < page.shownAtMs && VisibleAt(page, page.shownAtMs) then Some(page.shownAtMs - startMs)
    else None
  }

  /** `login` and `verifyLoginSuccess` observe the page at two moments: `login` waits from
      `loginAtMs` and returns once a signal shows, and verification starts at `verifyAtMs`, no
      earlier than that. Verification then times out exactly when the signal `login` saw is
      gone by the time it starts; while it is still visible, verification does not time out. */
  lemma VerifyAfterLogin(email: string, password: string, page: SignalTimeline, loginView: PageView,
                         verifyView: PageView, loginAtMs: nat, verifyAtMs: nat)
    requires loginView.firstSignalAtMs == FirstSignalAfter(page, loginAtMs)
    requires verifyView.firstSignalAtMs == FirstSignalAfter(page, verifyAtMs)
    requires LoginWith(email, password, loginView).outcome.Pass?
    requires verifyAtMs >= loginAtMs + loginView.firstSignalAtMs.value
    ensures VerifyLoginSuccess(verifyView) == Fail(Timeout(LoginOutcomeTimeoutMs)) <==> !VisibleAt(page, verifyAtMs)
  {
    assert page.shownAtMs <= verifyAtMs;
  }
}

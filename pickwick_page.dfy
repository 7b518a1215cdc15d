/** The state of the PickwickMedical page component: the mobile menu flag,
    the clinic status record and the contact form's phase, each replaced
    through its setter by the page's handlers. */
module PickwickPage {
  import opened ClinicStatus
  import StatusDisplay

  /** Phases of the simulated contact-form submission. */
  datatype FormStatus = Idle | Submitting | Success

  /** A status record the page can hold: the initial "Checking..." record or
      a resolver result for some clock reading. */
  ghost predicate Reachable(s: Status) {
    s == InitialStatus ||
    exists day, hour, minute :: ValidClock(day, hour, minute) && s == Resolve(day, hour, minute)
  }

  /** Every record the page can hold is self-consistent: it is open exactly
      when its text is "Open Now", exactly when its class is the green one,
      and never shows the locals' unused default text "Closed". */
  lemma ReachableConsistent(s: Status)
    requires Reachable(s)
    ensures s.isOpen <==> s.statusText == OpenNow
    ensures s.isOpen <==> s.colorClass == Green
    ensures s.statusText != "Closed"
  {
    if s != InitialStatus {
      var day, hour, minute :| ValidClock(day, hour, minute) && s == Resolve(day, hour, minute);
    }
  }

  /** On a valid page the held record is consistent: open exactly when it
      reads "Open Now", exactly when its class is the green one. */
  lemma ValidPageConsistent(page: PickwickMedical)
    requires page.Valid()
    ensures page.clinicStatus.isOpen <==> page.clinicStatus.statusText == OpenNow
    ensures page.clinicStatus.isOpen <==> page.clinicStatus.colorClass == Green
  {
    ReachableConsistent(page.clinicStatus);
  }

  class PickwickMedical {
    var isMobileMenuOpen: bool
    var clinicStatus: Status
    var formStatus: FormStatus

    ghost predicate Valid()
      reads this
    {
      Reachable(clinicStatus)
    }

    /** The initial state of the three pieces of state. */
    constructor ()
      ensures Valid()
      ensures !isMobileMenuOpen && clinicStatus == InitialStatus && formStatus == Idle
    {
      isMobileMenuOpen := false;
      clinicStatus := InitialStatus;
      formStatus := Idle;
    }

    /** One evaluation of the resolver, on the clock reading passed in;
        the record is replaced as a whole. */
    method CheckClinicStatus(day: int, hour: int, minute: int)
      requires Valid() && ValidClock(day, hour, minute)
      modifies this
      ensures Valid()
      ensures clinicStatus == Resolve(day, hour, minute)
      ensures isMobileMenuOpen == old(isMobileMenuOpen) && formStatus == old(formStatus)
    {
      clinicStatus := Resolve(day, hour, minute);
    }

    /** Submitting the contact form starts the simulated send. */
    method HandleFormSubmit()
      requires Valid()
      modifies this
      ensures Valid()
      ensures formStatus == Submitting
      ensures SubmitDisabled() && !ShowsSuccessPanel()
      ensures isMobileMenuOpen == old(isMobileMenuOpen) && clinicStatus == old(clinicStatus)
    {
      formStatus := Submitting;
    }

    /** The simulated send's timer callback reports success. */
    method SubmitTimerElapsed()
      requires Valid()
      modifies this
      ensures Valid()
      ensures formStatus == Success
      ensures ShowsSuccessPanel() && !SubmitDisabled()
      ensures isMobileMenuOpen == old(isMobileMenuOpen) && clinicStatus == old(clinicStatus)
    {
      formStatus := Success;
    }

    /** "Send another message" brings the form back. */
    method SendAnotherMessage()
      requires Valid()
      modifies this
      ensures Valid()
      ensures formStatus == Idle
      ensures !ShowsSuccessPanel() && !SubmitDisabled()
      ensures isMobileMenuOpen == old(isMobileMenuOpen) && clinicStatus == old(clinicStatus)
    {
      formStatus := Idle;
    }

    /** The menu button flips the mobile menu. */
    method ToggleMenu()
      requires Valid()
      modifies this
      ensures Valid()
      ensures isMobileMenuOpen == !old(isMobileMenuOpen)
      ensures formStatus == old(formStatus) && clinicStatus == old(clinicStatus)
    {
      isMobileMenuOpen := !isMobileMenuOpen;
    }

    /** Navigating to a section closes the mobile menu, but only when the
        section's element exists; otherwise nothing changes. */
    method ScrollToSection(elementFound: bool)
      requires Valid()
      modifies this
      ensures Valid()
      ensures isMobileMenuOpen == (if elementFound then false else old(isMobileMenuOpen))
      ensures formStatus == old(formStatus) && clinicStatus == old(clinicStatus)
    {
      if elementFound {
        isMobileMenuOpen := false;
      }
    }

    /** Whether the submit button is disabled. */
    function SubmitDisabled(): bool
      reads this
    {
      formStatus == Submitting
    }

    /** Whether the thank-you panel replaces the form. */
    function ShowsSuccessPanel(): bool
      reads this
    {
      formStatus == Success
    }

    /** The top contact bar line for the current record. On a valid page it
        starts with 'O' exactly when the status reads "Open Now", and it ends
        with the record's hours line. */
    function TopBar(): (r: string)
      reads this
      requires Valid()
      ensures |r| > |clinicStatus.hoursText| && r[|r| - |clinicStatus.hoursText|..] == clinicStatus.hoursText
      ensures r[0] == 'O' <==> clinicStatus.statusText == OpenNow
    {
      ReachableConsistent(clinicStatus);
      StatusDisplay.TopBarText(clinicStatus)
    }
  }

  /** The form can be submitted (it is shown and its button is enabled)
      exactly in the idle phase. */
  lemma SubmittableIffIdle(page: PickwickMedical)
    ensures !page.ShowsSuccessPanel() && !page.SubmitDisabled() <==> page.formStatus == Idle
  {
  }

  /** A full submission cycle ends with the form idle and submittable again;
      the menu and the status record are untouched. */
  method FormCycle(page: PickwickMedical)
    requires page.Valid()
    modifies page
    ensures page.Valid()
    ensures page.formStatus == Idle && !page.SubmitDisabled() && !page.ShowsSuccessPanel()
    ensures page.isMobileMenuOpen == old(page.isMobileMenuOpen)
    ensures page.clinicStatus == old(page.clinicStatus)
  {
    page.HandleFormSubmit();
    page.SubmitTimerElapsed();
    page.SendAnotherMessage();
  }

  /** A fresh page shows the closed top bar with an empty hours line until
      the first evaluation, and the resolver's line after it. */
  method FirstEvaluation(day: int, hour: int, minute: int) returns (before: string, after: string)
    requires ValidClock(day, hour, minute)
    ensures before == "Currently Closed \U{2022} "
    ensures after == StatusDisplay.TopBarText(Resolve(day, hour, minute))
    ensures day == Sunday ==> after == "Currently Closed \U{2022} Closed"
  {
    var page := new PickwickMedical();
    before := page.TopBar();
    page.CheckClinicStatus(day, hour, minute);
    after := page.TopBar();
    StatusDisplay.TopBarCases(day, hour, minute);
  }
}

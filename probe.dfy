/**
 * The retrying click probe of the availability tracker (`click_button`).
 *
 * The browser is not modelled. What one attempt of the probe observes --
 * the element was found and clicked, the driver raised its "no such
 * element" error, or it raised some other error -- is an `Outcome`, and
 * the browser's answers to successive attempts are a finite sequence of
 * outcomes that the probe consumes front to back. A real driver may keep
 * raising other errors for ever (they do not spend a retry); in the model
 * the loop also stops when the sequence is used up.
 */
module Probe {

  /** What a single find-and-click attempt ends with. */
  datatype Outcome = Clicked | NotFound | OtherError

  /** The lookup strategies that make the probe consult the driver. */
  predicate UsesDriver(findBy: string)
  {
    findBy == "xpath" || findBy == "class"
  }

  /**
   * The loop's variables: `retries` and `isClicked` as in the source, and
   * `used`, the number of outcomes (driver attempts) consumed so far.
   */
  datatype ProbeState = ProbeState(retries: nat, clicked: bool, used: nat)

  const Start := ProbeState(0, false, 0)

  /** Number of `NotFound` outcomes in `os`. */
  function CountNotFound(os: seq<Outcome>): nat
  {
    if os == [] then 0
    else (if os[0] == NotFound then 1 else 0) + CountNotFound(os[1..])
  }

  /** The loop guard of the source, plus the model's bound on the outcomes. */
  predicate Continues(findBy: string, maxRetries: int, outcomes: seq<Outcome>, s: ProbeState)
  {
    !s.clicked && s.retries < maxRetries && (!UsesDriver(findBy) || s.used < |outcomes|)
  }

  /**
   * The probe's loop, run from state `s` until its guard fails: the
   * specification that `ClickButton` is proved against.
   */
  function Run(findBy: string, maxRetries: int, outcomes: seq<Outcome>, s: ProbeState): (r: ProbeState)
    requires s.used <= |outcomes|
    ensures s.used <= r.used <= |outcomes|
    ensures !Continues(findBy, maxRetries, outcomes, r)
    decreases |outcomes| - s.used, if s.clicked then 0 else 1
  {
    if !Continues(findBy, maxRetries, outcomes, s) then s
    else if !UsesDriver(findBy) then
      // the unknown strategy evaluates `NotImplemented` and falls through
      Run(findBy, maxRetries, outcomes, s.(clicked := true))
    else
      match outcomes[s.used]
      case Clicked => Run(findBy, maxRetries, outcomes, s.(clicked := true, used := s.used + 1))
      case NotFound => Run(findBy, maxRetries, outcomes, s.(retries := s.retries + 1, used := s.used + 1))
      case OtherError => Run(findBy, maxRetries, outcomes, s.(used := s.used + 1))
  }

  /**
   * The final state of a whole probe call. Only the "xpath" and "class"
   * strategies ever ask the driver.
   */
  function FinalState(findBy: string, maxRetries: int, outcomes: seq<Outcome>): (r: ProbeState)
    ensures r.used <= |outcomes|
    ensures !UsesDriver(findBy) ==> r.used == 0 && r.retries == 0
  {
    var r := Run(findBy, maxRetries, outcomes, Start);
    assert !UsesDriver(findBy) && maxRetries >= 1 ==> r == Run(findBy, maxRetries, outcomes, Start.(clicked := true));
    r
  }

  /**
   * `click_button`: try to find and click an element, spending one retry on
   * every "no such element" error and swallowing every other error.
   * Returns whether the element was clicked and how many driver attempts
   * were made.
   */
  method ClickButton(outcomes: seq<Outcome>, findBy: string, maxRetries: int) returns (isClicked: bool, used: nat)
    ensures isClicked == FinalState(findBy, maxRetries, outcomes).clicked
    ensures used == FinalState(findBy, maxRetries, outcomes).used
  {
    var retries: nat := 0;
    isClicked := false;
    used := 0;
    while !isClicked && retries < maxRetries && (!UsesDriver(findBy) || used < |outcomes|)
      invariant used <= |outcomes|
      invariant Run(findBy, maxRetries, outcomes, ProbeState(retries, isClicked, used)) == FinalState(findBy, maxRetries, outcomes)
      decreases |outcomes| - used, if isClicked then 0 else 1
    {
      // what the body of the `try` ends with; the unknown strategy raises nothing
      var attempt := Clicked;
      if findBy == "xpath" || findBy == "class" {
        attempt := outcomes[used];
        used := used + 1;
      }
      match attempt
      case Clicked => isClicked := true;
      case NotFound => retries := retries + 1;
      case OtherError =>
    }
  }

  // ---------------------------------------------------------------------
  // Properties of the probe

  /** With no retry budget the loop body never runs: no attempt, no click. */
  lemma ProbeNoBudget(findBy: string, maxRetries: int, outcomes: seq<Outcome>)
    requires maxRetries <= 0
    ensures FinalState(findBy, maxRetries, outcomes) == ProbeState(0, false, 0)
  {
  }

  lemma {:induction false} RunRetriesBounded(findBy: string, maxRetries: int, outcomes: seq<Outcome>, s: ProbeState)
    requires s.used <= |outcomes|
    requires s.retries <= (if maxRetries < 0 then 0 else maxRetries)
    ensures s.retries <= Run(findBy, maxRetries, outcomes, s).retries <= (if maxRetries < 0 then 0 else maxRetries)
    decreases |outcomes| - s.used, if s.clicked then 0 else 1
  {
    if !Continues(findBy, maxRetries, outcomes, s) {
    } else if !UsesDriver(findBy) {
      RunRetriesBounded(findBy, maxRetries, outcomes, s.(clicked := true));
    } else {
      match outcomes[s.used]
      case Clicked => RunRetriesBounded(findBy, maxRetries, outcomes, s.(clicked := true, used := s.used + 1));
      case NotFound => RunRetriesBounded(findBy, maxRetries, outcomes, s.(retries := s.retries + 1, used := s.used + 1));
      case OtherError => RunRetriesBounded(findBy, maxRetries, outcomes, s.(used := s.used + 1));
    }
  }

  /**
   * `retries` never exceeds the budget, and the loop only stops once the
   * element is clicked, the budget is spent or the outcomes are used up.
   */
  lemma ProbeRetriesBounded(findBy: string, maxRetries: int, outcomes: seq<Outcome>)
    ensures FinalState(findBy, maxRetries, outcomes).retries <= (if maxRetries < 0 then 0 else maxRetries)
    ensures var r := FinalState(findBy, maxRetries, outcomes);
            r.clicked || r.retries >= maxRetries || r.used == |outcomes|
  {
    RunRetriesBounded(findBy, maxRetries, outcomes, Start);
  }

  lemma {:induction false} RunCountsNotFound(findBy: string, maxRetries: int, outcomes: seq<Outcome>, s: ProbeState)
    requires s.used <= |outcomes|
    requires UsesDriver(findBy)
    ensures var r := Run(findBy, maxRetries, outcomes, s);
            r.retries == s.retries + CountNotFound(outcomes[s.used..r.used])
    decreases |outcomes| - s.used
  {
    var r := Run(findBy, maxRetries, outcomes, s);
    if !Continues(findBy, maxRetries, outcomes, s) {
      assert outcomes[s.used..r.used] == [];
    } else {
      var s' := match outcomes[s.used]
        case Clicked => s.(clicked := true, used := s.used + 1)
        case NotFound => s.(retries := s.retries + 1, used := s.used + 1)
        case OtherError => s.(used := s.used + 1);
      assert r == Run(findBy, maxRetries, outcomes, s');
      RunCountsNotFound(findBy, maxRetries, outcomes, s');
      assert outcomes[s.used..r.used][1..] == outcomes[s'.used..r.used];
    }
  }

  /**
   * Every `NotFound` outcome spends exactly one retry, and nothing else
   * does: `retries` is the number of `NotFound` answers among the attempts
   * made (so an `OtherError` leaves the retry count alone).
   */
  lemma ProbeCountsNotFound(findBy: string, maxRetries: int, outcomes: seq<Outcome>)
    ensures var r := FinalState(findBy, maxRetries, outcomes);
            r.retries == CountNotFound(outcomes[..r.used])
  {
    if UsesDriver(findBy) {
      RunCountsNotFound(findBy, maxRetries, outcomes, Start);
    } else {
      assert outcomes[..0] == [];
    }
  }

  lemma {:induction false} RunClickedIffSucceeded(findBy: string, maxRetries: int, outcomes: seq<Outcome>, s: ProbeState)
    requires s.used <= |outcomes|
    requires UsesDriver(findBy) && !s.clicked
    ensures var r := Run(findBy, maxRetries, outcomes, s);
            r.clicked <==> (s.used < r.used && outcomes[r.used - 1] == Clicked)
    ensures var r := Run(findBy, maxRetries, outcomes, s);
            forall j :: s.used <= j < r.used - 1 ==> outcomes[j] != Clicked
    decreases |outcomes| - s.used
  {
    if Continues(findBy, maxRetries, outcomes, s) {
      match outcomes[s.used]
      case Clicked =>
      case NotFound => RunClickedIffSucceeded(findBy, maxRetries, outcomes, s.(retries := s.retries + 1, used := s.used + 1));
      case OtherError => RunClickedIffSucceeded(findBy, maxRetries, outcomes, s.(used := s.used + 1));
    }
  }

  /**
   * The probe reports a click iff one of its attempts succeeded, and the
   * first success is its last attempt: nothing is tried after a click.
   */
  lemma ProbeClickedIffSucceeded(findBy: string, maxRetries: int, outcomes: seq<Outcome>)
    requires UsesDriver(findBy)
    ensures var r := FinalState(findBy, maxRetries, outcomes);
            r.clicked <==> exists j :: 0 <= j < r.used && outcomes[j] == Clicked
    ensures var r := FinalState(findBy, maxRetries, outcomes);
            forall j :: 0 <= j < r.used && outcomes[j] == Clicked ==> j == r.used - 1
  {
    RunClickedIffSucceeded(findBy, maxRetries, outcomes, Start);
  }

  lemma {:induction false} RunClickedIffReachable(findBy: string, maxRetries: int, outcomes: seq<Outcome>, s: ProbeState)
    requires s.used <= |outcomes|
    requires UsesDriver(findBy) && !s.clicked
    ensures Run(findBy, maxRetries, outcomes, s).clicked <==>
      exists j :: s.used <= j < |outcomes| && outcomes[j] == Clicked
                  && s.retries + CountNotFound(outcomes[s.used..j]) < maxRetries
    decreases |outcomes| - s.used
  {
    var a := s.used;
    if !Continues(findBy, maxRetries, outcomes, s) {
      forall j | a <= j < |outcomes|
        ensures s.retries + CountNotFound(outcomes[a..j]) >= maxRetries
      {
      }
    } else if outcomes[a] == Clicked {
      assert outcomes[a..a] == [];
    } else {
      var s' := if outcomes[a] == NotFound then s.(retries := s.retries + 1, used := a + 1)
                else s.(used := a + 1);
      assert Run(findBy, maxRetries, outcomes, s) == Run(findBy, maxRetries, outcomes, s');
      RunClickedIffReachable(findBy, maxRetries, outcomes, s');
      // an attempt after this one sees one more NotFound iff this one was one
      forall j | a < j <= |outcomes|
        ensures s.retries + CountNotFound(outcomes[a..j]) == s'.retries + CountNotFound(outcomes[a + 1..j])
      {
        assert outcomes[a..j][0] == outcomes[a];
        assert outcomes[a..j][1..] == outcomes[a + 1..j];
      }
    }
  }

  /**
   * An independent description of success: the probe clicks iff some
   * outcome is a click that comes before `maxRetries` NotFound answers.
   */
  lemma ProbeClickedIffReachable(findBy: string, maxRetries: int, outcomes: seq<Outcome>)
    requires UsesDriver(findBy)
    ensures FinalState(findBy, maxRetries, outcomes).clicked <==>
      exists j :: 0 <= j < |outcomes| && outcomes[j] == Clicked && CountNotFound(outcomes[..j]) < maxRetries
  {
    RunClickedIffReachable(findBy, maxRetries, outcomes, Start);
    forall j | 0 <= j < |outcomes|
      ensures outcomes[..j] == outcomes[0..j]
    {
    }
  }

  lemma {:induction false} RunAllNotFound(findBy: string, maxRetries: int, outcomes: seq<Outcome>, s: ProbeState)
    requires UsesDriver(findBy) && !s.clicked
    requires s.retries == s.used <= maxRetries <= |outcomes|
    requires forall j :: 0 <= j < maxRetries ==> outcomes[j] == NotFound
    ensures Run(findBy, maxRetries, outcomes, s) == ProbeState(maxRetries, false, maxRetries)
    decreases |outcomes| - s.used
  {
    if s.retries < maxRetries {
      RunAllNotFound(findBy, maxRetries, outcomes, s.(retries := s.retries + 1, used := s.used + 1));
    }
  }

  /**
   * When the element is never found, the probe gives up and returns false
   * after exactly `maxRetries` attempts.
   */
  lemma ProbeAllNotFound(findBy: string, maxRetries: int, outcomes: seq<Outcome>)
    requires UsesDriver(findBy)
    requires 0 <= maxRetries <= |outcomes|
    requires forall j :: 0 <= j < maxRetries ==> outcomes[j] == NotFound
    ensures FinalState(findBy, maxRetries, outcomes) == ProbeState(maxRetries, false, maxRetries)
  {
    RunAllNotFound(findBy, maxRetries, outcomes, Start);
  }

  lemma {:induction false} RunOtherErrorsOnly(findBy: string, maxRetries: int, outcomes: seq<Outcome>, s: ProbeState)
    requires UsesDriver(findBy) && !s.clicked
    requires s.used <= |outcomes| && s.retries < maxRetries
    requires forall j :: 0 <= j < |outcomes| ==> outcomes[j] == OtherError
    ensures Run(findBy, maxRetries, outcomes, s) == s.(used := |outcomes|)
    decreases |outcomes| - s.used
  {
    if s.used < |outcomes| {
      RunOtherErrorsOnly(findBy, maxRetries, outcomes, s.(used := s.used + 1));
    }
  }

  /**
   * Other errors are swallowed without spending a retry: for a driver
   * strategy and a budget of at least one, a driver that only raises them
   * is asked until the outcomes run out (with a real driver, for ever).
   */
  lemma ProbeOtherErrorsOnly(findBy: string, maxRetries: int, outcomes: seq<Outcome>)
    requires UsesDriver(findBy) && maxRetries >= 1
    requires forall j :: 0 <= j < |outcomes| ==> outcomes[j] == OtherError
    ensures FinalState(findBy, maxRetries, outcomes) == ProbeState(0, false, |outcomes|)
  {
    RunOtherErrorsOnly(findBy, maxRetries, outcomes, Start);
  }

  /**
   * An unrecognised strategy never consults the driver, and yet, with a
   * budget of at least one, the probe reports a click after one pass
   * through the loop body.
   */
  lemma ProbeUnknownStrategy(findBy: string, maxRetries: int, outcomes: seq<Outcome>)
    requires !UsesDriver(findBy) && maxRetries >= 1
    ensures FinalState(findBy, maxRetries, outcomes) == ProbeState(0, true, 0)
  {
    assert FinalState(findBy, maxRetries, outcomes) == Run(findBy, maxRetries, outcomes, ProbeState(0, true, 0));
  }
}

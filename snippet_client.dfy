/**
 * The controller of one live snippet: the effect that forwards edits once
 * the snippet has been on screen, the debounce, the 5-second rate limit
 * with its single deferred build, the diagnostics gate, and the
 * settlement of a compile that updates the displayed output.
 *
 * Time is an explicit parameter. The debounce timer, the rate-limit timer,
 * the viewport observer and the settlement of the compile promise are
 * explicit events (methods) that the environment calls.
 */
module SnippetClient {
  import opened Wrappers
  import opened Strings
  import opened SnippetOutput

  const RateLimitMs: nat := 5000

  /** The arguments of one call to the debounced `compile`. */
  datatype CompileRequest = CompileRequest(code: string, markers: seq<Marker>)

  /** The one rate-limited build waiting for its timer. */
  datatype DeferredBuild = DeferredBuild(fireAt: int, request: CompileRequest)

  /** How the compile promise settles: the saved files, or a thrown error. */
  datatype CompileOutcome = Resolved(files: seq<FileInfo>) | Rejected

  datatype Admission = CompileNow | WaitUntil(fireAt: int)

  /**
   * The rate-limit decision when the debounced call fires: build now if no
   * build has started yet or 5000 ms have passed since the last one,
   * otherwise wait exactly until 5000 ms after it.
   */
  function Admit(lastBuildTime: int, now: int): (d: Admission)
    ensures d.CompileNow? <==> lastBuildTime == 0 || now >= lastBuildTime + RateLimitMs
    ensures d.WaitUntil? ==> now < d.fireAt && d.fireAt == lastBuildTime + RateLimitMs
  {
    var timeSinceLastBuild := now - lastBuildTime;
    if timeSinceLastBuild >= RateLimitMs || lastBuildTime == 0 then CompileNow
    else
      var waitTime := RateLimitMs - timeSinceLastBuild;
      WaitUntil(now + waitTime)
  }

  /** A new build start time keeps the floor to the previous one. */
  predicate RateLimitRespected(before: int, after: int) {
    after == before || before == 0 || after >= before + RateLimitMs
  }

  /**
   * The part of the controller's state that a compile reads and writes:
   * the text of the last successful build, the displayed entries, the
   * loading flag, the last build start, and the trimmed texts of the
   * builds whose promise has not settled yet.
   */
  datatype CompileState = CompileState(
    previousCode: string,
    displayed: seq<OutputFile>,
    isLoading: bool,
    lastBuildTime: int,
    inFlight: seq<string>)

  /**
   * What `doCompile` does up to the point where the build runs
   * asynchronously; the second component is the text handed to the
   * compiler, if any.
   */
  function StartCompile(s: CompileState, request: CompileRequest, now: int, usedExports: seq<string>)
    : (r: (CompileState, Option<string>))
    ensures r.0.previousCode == s.previousCode
    ensures Trim(request.code) == s.previousCode ==> r == (s, None)
    ensures Trim(request.code) != s.previousCode ==> r.0.lastBuildTime == now
    ensures Trim(request.code) != s.previousCode && HasBlockingMarker(request.markers) ==>
              r.1.None? && r.0.displayed == [ErrorReport(request.markers)] && !r.0.isLoading
              && r.0.inFlight == s.inFlight
    ensures r.1.Some? <==> Trim(request.code) != s.previousCode && !HasBlockingMarker(request.markers)
    ensures r.1.Some? ==>
              r.1.value == CodeWithImports(usedExports, request.code)
              && r.0.inFlight == s.inFlight + [Trim(request.code)]
              && r.0.displayed == s.displayed && r.0.isLoading
  {
    if s.previousCode == Trim(request.code) then (s, None)
    else if HasBlockingMarker(request.markers) then
      (s.(displayed := [ErrorReport(request.markers)], isLoading := false, lastBuildTime := now), None)
    else
      (s.(isLoading := true, lastBuildTime := now, inFlight := s.inFlight + [Trim(request.code)]),
       Some(CodeWithImports(usedExports, request.code)))
  }

  /**
   * The settlement of in-flight build `job`: on success its text becomes
   * `previousCode` and the filtered result is displayed; on failure the
   * displayed entries stay as they were.
   */
  function Settle(s: CompileState, job: nat, outcome: CompileOutcome, prettyJson: string -> Option<string>)
    : (r: CompileState)
    requires job < |s.inFlight|
    ensures !r.isLoading && r.lastBuildTime == s.lastBuildTime
    ensures |r.inFlight| == |s.inFlight| - 1
    ensures forall k :: 0 <= k < |r.inFlight| ==> r.inFlight[k] == s.inFlight[if k < job then k else k + 1]
    ensures outcome.Rejected? ==> r.previousCode == s.previousCode && r.displayed == s.displayed
    ensures outcome.Resolved? ==>
              r.previousCode == s.inFlight[job] && r.displayed == DisplayEntries(outcome.files, prettyJson)
  {
    var rest := s.inFlight[..job] + s.inFlight[job + 1..];
    match outcome
    case Resolved(files) =>
      s.(previousCode := s.inFlight[job], displayed := DisplayEntries(files, prettyJson),
         isLoading := false, inFlight := rest)
    case Rejected =>
      s.(isLoading := false, inFlight := rest)
  }

  /**
   * Once a build of some text has succeeded, a later request with the same
   * text (up to surrounding white space) starts nothing and changes nothing.
   */
  lemma NoRebuildOfSameText(s: CompileState, job: nat, files: seq<FileInfo>,
                            prettyJson: string -> Option<string>,
                            request: CompileRequest, now: int, usedExports: seq<string>)
    requires job < |s.inFlight|
    requires Trim(request.code) == s.inFlight[job]
    ensures var settled := Settle(s, job, Resolved(files), prettyJson);
            StartCompile(settled, request, now, usedExports) == (settled, None)
  {
  }

  /**
   * A gated attempt does not record its text, so the same erroneous text is
   * gated again (and stamps the build time again) on the next request.
   */
  lemma GatedTextIsRechecked(s: CompileState, request: CompileRequest, now: int, later: int,
                             usedExports: seq<string>)
    requires Trim(request.code) != s.previousCode && HasBlockingMarker(request.markers)
    ensures var first := StartCompile(s, request, now, usedExports).0;
            var second := StartCompile(first, request, later, usedExports);
            second.1.None? && second.0.lastBuildTime == later
            && second.0.displayed == [ErrorReport(request.markers)]
  {
  }

  class SnippetController {
    var previousCode: string
    var displayed: seq<OutputFile>
    var isLoading: bool
    var isPending: bool
    var hasBeenVisible: bool
    var lastBuildTime: int
    var rateLimitTimeout: Option<DeferredBuild>
    /** The call the debounce holds back, if any; a later call replaces it. */
    var debounced: Option<CompileRequest>
    var inFlight: seq<string>

    /** A deferred build always fires 5000 ms after the last build start. */
    ghost predicate Valid()
      reads this
    {
      rateLimitTimeout.Some? ==> rateLimitTimeout.value.fireAt == lastBuildTime + RateLimitMs
    }

    ghost function State(): CompileState
      reads this
    {
      CompileState(previousCode, displayed, isLoading, lastBuildTime, inFlight)
    }

    constructor ()
      ensures Valid()
      ensures State() == CompileState("", [], true, 0, [])
      ensures !isPending && !hasBeenVisible && rateLimitTimeout.None? && debounced.None?
    {
      previousCode := "";
      displayed := [];
      isLoading := true;
      isPending := false;
      hasBeenVisible := false;
      lastBuildTime := 0;
      rateLimitTimeout := None;
      debounced := None;
      inFlight := [];
    }

    /** The viewport observer reports the snippet as intersecting. */
    method BecameVisible()
      modifies this`hasBeenVisible
      ensures hasBeenVisible
    {
      hasBeenVisible := true;
    }

    /** The effect run when the recovery counter changes: a recovery re-arms the gate. */
    method ResetKeyChanged(resetKey: nat)
      modifies this`hasBeenVisible
      ensures hasBeenVisible == (old(hasBeenVisible) && resetKey == 0)
    {
      if resetKey > 0 {
        hasBeenVisible := false;
      }
    }

    /**
     * The effect run when the editor text, the markers or the visibility
     * change: nothing while the snippet has not been seen; otherwise mark
     * the output as pending when the text differs from the last build and
     * hand the call to the debounce, replacing any call it holds.
     */
    method InputChanged(editorValue: string, markers: seq<Marker>)
      requires Valid()
      modifies this`isPending, this`debounced
      ensures Valid()
      ensures !hasBeenVisible ==> isPending == old(isPending) && debounced == old(debounced)
      ensures hasBeenVisible ==>
                debounced == Some(CompileRequest(editorValue, markers))
                && isPending == (old(isPending) || (previousCode != "" && Trim(editorValue) != previousCode))
    {
      if hasBeenVisible {
        if previousCode != "" && Trim(editorValue) != previousCode {
          isPending := true;
        }
        debounced := Some(CompileRequest(editorValue, markers));
      }
    }

    /**
     * `doCompile`: clear the pending mark; skip text equal to the last
     * successful build; otherwise stamp the build time, then either show
     * the diagnostics report or start the build of the code with its import
     * line.
     */
    method DoCompile(request: CompileRequest, now: int, usedExports: seq<string>) returns (submitted: Option<string>)
      modifies this`isPending, this`isLoading, this`lastBuildTime, this`displayed, this`inFlight
      ensures !isPending
      ensures (State(), submitted) == StartCompile(old(State()), request, now, usedExports)
    {
      isPending := false;
      if previousCode == Trim(request.code) {
        return None;
      }
      submitted := Launch(request, now, usedExports);
    }

    /** A build past the gate: start it, or report the blocking diagnostics. */
    method Launch(request: CompileRequest, now: int, usedExports: seq<string>) returns (submitted: Option<string>)
      requires previousCode != Trim(request.code)
      modifies this`isLoading, this`lastBuildTime, this`displayed, this`inFlight
      ensures (State(), submitted) == StartCompile(old(State()), request, now, usedExports)
    {
      ghost var expected := StartCompile(State(), request, now, usedExports);
      isLoading := true;
      lastBuildTime := now;
      var blocked := FindBlockingMarker(request.markers);
      if blocked {
        displayed := [ErrorReport(request.markers)];
        isLoading := false;
        assert State() == expected.0;
        return None;
      }
      inFlight := inFlight + [Trim(request.code)];
      submitted := Some(CodeWithImports(usedExports, request.code));
      assert State() == expected.0;
    }

    /**
     * The debounce fires: cancel any deferred build, then build now or
     * defer exactly one build to 5000 ms after the last start.
     */
    method DebounceElapsed(now: int, usedExports: seq<string>) returns (submitted: Option<string>)
      requires Valid()
      modifies this
      ensures Valid()
      ensures old(debounced).None? ==> unchanged(this) && submitted.None?
      ensures old(debounced).Some? ==>
                debounced.None? && hasBeenVisible == old(hasBeenVisible)
                && (match Admit(old(lastBuildTime), now)
                    case CompileNow =>
                      rateLimitTimeout.None? && !isPending
                      && (State(), submitted) == StartCompile(old(State()), old(debounced).value, now, usedExports)
                    case WaitUntil(t) =>
                      rateLimitTimeout == Some(DeferredBuild(t, old(debounced).value))
                      && State() == old(State()) && isPending == old(isPending) && submitted.None?)
      ensures RateLimitRespected(old(lastBuildTime), lastBuildTime)
    {
      if debounced.None? {
        return None;
      }
      var request := debounced.value;
      debounced := None;
      rateLimitTimeout := None;
      match Admit(lastBuildTime, now)
      case CompileNow =>
        submitted := DoCompile(request, now, usedExports);
      case WaitUntil(t) =>
        rateLimitTimeout := Some(DeferredBuild(t, request));
        submitted := None;
    }

    /** The deferred build's timer fires (never before its time). */
    method RateLimitElapsed(now: int, usedExports: seq<string>) returns (submitted: Option<string>)
      requires Valid()
      requires rateLimitTimeout.Some? && now >= rateLimitTimeout.value.fireAt
      modifies this
      ensures Valid() && rateLimitTimeout.None? && !isPending
      ensures debounced == old(debounced) && hasBeenVisible == old(hasBeenVisible)
      ensures (State(), submitted) == StartCompile(old(State()), old(rateLimitTimeout).value.request, now, usedExports)
      ensures RateLimitRespected(old(lastBuildTime), lastBuildTime)
    {
      var request := rateLimitTimeout.value.request;
      rateLimitTimeout := None;
      submitted := DoCompile(request, now, usedExports);
    }

    /** The promise of in-flight build `job` settles. */
    method CompileSettled(job: nat, outcome: CompileOutcome, prettyJson: string -> Option<string>)
      requires Valid()
      requires job < |inFlight|
      modifies this`previousCode, this`displayed, this`isLoading, this`inFlight
      ensures Valid()
      ensures State() == Settle(old(State()), job, outcome, prettyJson)
    {
      var code := inFlight[job];
      inFlight := inFlight[..job] + inFlight[job + 1..];
      match outcome
      case Resolved(files) =>
        previousCode := code;
        displayed := DisplayEntries(files, prettyJson);
        isLoading := false;
      case Rejected =>
        isLoading := false;
    }
  }
}

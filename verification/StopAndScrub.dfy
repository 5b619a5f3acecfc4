/** Reaping a boxed run (`defender/box/_lifecycle.py`, `defender/box/_scrub.py`, `defender/run.py`):
    stop the box, walk the tree it could write, leave a verdict, and let the right failure through. */
module StopAndScrub {
  import opened Options

  // ---------------------------------------------------------------- the walk

  datatype Kind = Regular | Directory | Symlink | Special

  /** What the walk meets: an entry and its `lstat`, or a folder it cannot list. */
  datatype Sighting = Entry(path: string, kind: Kind, links: nat) | StatFails(path: string) | Unlistable(path: string)

  datatype Fault = WrongType | HardLink | Unreadable

  datatype Finding = Finding(path: string, fault: Fault)

  /** `_check_entry`, and the walk's own rule for what it cannot judge. */
  function Judged(s: Sighting): Option<Finding> {
    match s
    case Entry(path, kind, links) =>
      if kind.Symlink? || kind.Special? then Some(Finding(path, WrongType))
      else if kind.Regular? && links > 1 then Some(Finding(path, HardLink))
      else None
    case StatFails(path) => Some(Finding(path, Unreadable))
    case Unlistable(path) => Some(Finding(path, Unreadable))
  }

  /** Only a folder, or a regular file with one name, may survive. */
  predicate Permitted(s: Sighting) {
    s.Entry? && (s.kind.Directory? || (s.kind.Regular? && s.links <= 1))
  }

  predicate Classified(s: Sighting) { s.Entry? }

  function FindingsOf(walk: seq<Sighting>): seq<Finding> {
    if walk == [] then [] else
      var before := FindingsOf(walk[..|walk| - 1]);
      match Judged(walk[|walk| - 1])
      case None => before
      case Some(f) => before + [f]
  }

  predicate Partial(findings: seq<Finding>) { exists i :: 0 <= i < |findings| && findings[i].fault.Unreadable? }

  /** No finding exactly when everything met is permitted; a partial walk exactly when something
      could not be classified. */
  lemma {:induction false} FindingsTellTheWalk(walk: seq<Sighting>)
    ensures FindingsOf(walk) == [] <==> forall i :: 0 <= i < |walk| ==> Permitted(walk[i])
    ensures Partial(FindingsOf(walk)) <==> exists i :: 0 <= i < |walk| && !Classified(walk[i])
    decreases |walk|
  {
    if walk != [] {
      var last := |walk| - 1;
      var before, found := FindingsOf(walk[..last]), FindingsOf(walk);
      FindingsTellTheWalk(walk[..last]);
      assert forall i :: 0 <= i < last ==> walk[..last][i] == walk[i];
      if Partial(before) {
        var i :| 0 <= i < |before| && before[i].fault.Unreadable?;
        assert found[i] == before[i];
      }
      if !Classified(walk[last]) { assert found[|found| - 1].fault.Unreadable?; }
    }
  }

  /** What is found of an entry: a link or special file is of the wrong type, a regular file of several
      names is a hard link, whatever cannot be asked or listed is unreadable; each under its own path. */
  lemma JudgedAsItIs(s: Sighting)
    ensures Judged(s).None? <==> Permitted(s)
    ensures Judged(s).Some? ==> Judged(s).value.path == s.path
    ensures Judged(s).Some? ==>
              && (Judged(s).value.fault.Unreadable? <==> s.StatFails? || s.Unlistable?)
              && (Judged(s).value.fault.WrongType? <==> s.Entry? && (s.kind.Symlink? || s.kind.Special?))
              && (Judged(s).value.fault.HardLink? <==> s.Entry? && s.kind.Regular? && s.links > 1)
  {
  }

  /** The findings are those of the sightings, each and no other. */
  lemma {:induction false} FindingsAreOfTheirSightings(walk: seq<Sighting>)
    ensures forall i :: 0 <= i < |walk| && !Permitted(walk[i]) ==> Judged(walk[i]).value in FindingsOf(walk)
    ensures forall f :: f in FindingsOf(walk) ==> exists i :: 0 <= i < |walk| && Judged(walk[i]) == Some(f)
    decreases |walk|
  {
    if walk != [] {
      var last := |walk| - 1;
      FindingsAreOfTheirSightings(walk[..last]);
      assert forall i :: 0 <= i < last ==> walk[..last][i] == walk[i];
      JudgedAsItIs(walk[last]);
      forall f | f in FindingsOf(walk) ensures exists i :: 0 <= i < |walk| && Judged(walk[i]) == Some(f) {
        if f in FindingsOf(walk[..last]) {
          var i :| 0 <= i < last && Judged(walk[..last][i]) == Some(f);
          assert Judged(walk[i]) == Some(f);
        }
      }
    }
  }

  // ---------------------------------------------------------------- the verdict file

  /** The verdict's two members; either may be missing. */
  datatype Verdict = Verdict(ran: Option<bool>, sandboxed: Option<bool>)

  /** What the file holds: nothing, a verdict, or something no writer here left: JSON that is no object,
      no JSON, or bytes that are not UTF-8. */
  datatype OnFile = Missing | Doc(verdict: Verdict) | NotAnObject | NotJson | NotText

  /** `tree_verified` reads it outside what it catches. */
  predicate Foreign(v: OnFile) { v.NotAnObject? || v.NotText? }

  datatype Stop = Down | Faults | Crashes

  datatype Drive = Fails | Ends(boxEnding: bool)

  /** Everything the outside decides: each write or read of the verdict may fail on its own. */
  datatype Env = Env(
    drive: Drive, stop: Stop, sandboxed: bool, walk: seq<Sighting>,
    skipWrites: bool, scrubWrites: bool, markReads: bool, markWrites: bool, sweepFails: bool, finalReads: bool)

  datatype Reap = BoxIsDown | BoxMayLive | TeardownFault | Tainted | OtherFailure

  function Written(v: OnFile, doc: Verdict, works: bool): OnFile {
    if works then Doc(doc) else v
  }

  function AfterScrub(v: OnFile, env: Env): OnFile {
    Written(v, Verdict(Some(!Partial(FindingsOf(env.walk))), None), env.scrubWrites)
  }

  function AfterMark(v: OnFile, env: Env): OnFile {
    if env.sandboxed then v
    else Written(v, Verdict(if v.Doc? && env.markReads then v.verdict.ran else None, Some(false)), env.markWrites)
  }

  /** What `stop_and_scrub` leaves as the verdict, and how it ends. */
  function Reaped(v: OnFile, env: Env, inFlight: bool): (OnFile, Reap) {
    match env.stop
    case Crashes => (v, OtherFailure)
    case Faults =>
      (Written(v, Verdict(Some(false), None), env.skipWrites), if inFlight then BoxMayLive else TeardownFault)
    case Down =>
      (AfterMark(AfterScrub(v, env), env),
       if FindingsOf(env.walk) != [] then Tainted else if env.sweepFails then OtherFailure else BoxIsDown)
  }

  class RunTree {
    var verdict: OnFile
    var walks: nat

    constructor (verdict: OnFile)
      ensures this.verdict == verdict && walks == 0
    {
      this.verdict, walks := verdict, 0;
    }

    /** `_write_verdict`: best-effort; a failed replace leaves the file as it was. */
    method WriteVerdict(doc: Verdict, works: bool)
      modifies this`verdict
      ensures verdict == Written(old(verdict), doc, works)
    {
      if works { verdict := Doc(doc); }
    }

    /** `scrub`: every entry judged, the verdict written before the findings are raised. */
    method Scrub(walk: seq<Sighting>, writes: bool) returns (findings: seq<Finding>)
      modifies this
      ensures findings == FindingsOf(walk) && walks == old(walks) + 1
      ensures verdict == Written(old(verdict), Verdict(Some(!Partial(findings)), None), writes)
    {
      walks := walks + 1;
      findings := [];
      var partial := false;
      for k := 0 to |walk|
        invariant findings == FindingsOf(walk[..k]) && partial == Partial(findings)
        invariant walks == old(walks) + 1 && verdict == old(verdict)
      {
        assert walk[..k + 1][..k] == walk[..k];
        var finding := Judged(walk[k]);
        if finding.Some? {
          OneMoreFinding(findings, finding.value);
          findings := findings + [finding.value];
          partial := partial || finding.value.fault.Unreadable?;
        }
      }
      assert walk[..|walk|] == walk;
      WriteVerdict(Verdict(Some(!partial), None), writes);
    }

    /** `stop_and_scrub`. */
    method StopAndScrub(env: Env, inFlight: bool) returns (reap: Reap)
      modifies this
      ensures (verdict, reap) == Reaped(old(verdict), env, inFlight)
      ensures walks == old(walks) + (if env.stop.Down? then 1 else 0)
    {
      if env.stop.Crashes? { return OtherFailure; }
      if env.stop.Faults? {
        WriteVerdict(Verdict(Some(false), None), env.skipWrites);
        return if inFlight then BoxMayLive else TeardownFault;
      }
      var findings := Scrub(env.walk, env.scrubWrites);
      if !env.sandboxed {
        // `mark_unsandboxed`, in the `finally` of the scrub.
        var ran := if verdict.Doc? && env.markReads then verdict.verdict.ran else None;
        WriteVerdict(Verdict(ran, Some(false)), env.markWrites);
      }
      if findings != [] { return Tainted; }
      return if env.sweepFails then OtherFailure else BoxIsDown;
    }

    /** `tree_verified`; `None` when it raises. */
    method Verified(readable: bool) returns (verified: Option<bool>)
      ensures verified.None? <==> readable && (verdict.NotText? || verdict.NotAnObject?)
      ensures verified.Some? ==> (verified.value <==> readable && Says(verdict))
    {
      if readable && Foreign(verdict) { return None; }
      verified := Some(readable && verdict.Doc? && verdict.verdict.ran == Some(true));
    }
  }

  lemma OneMoreFinding(findings: seq<Finding>, f: Finding)
    ensures Partial(findings + [f]) <==> Partial(findings) || f.fault.Unreadable?
  {
    var more := findings + [f];
    if Partial(findings) {
      var i :| 0 <= i < |findings| && findings[i].fault.Unreadable?;
      assert more[i].fault.Unreadable?;
    }
    if f.fault.Unreadable? { assert more[|findings|].fault.Unreadable?; }
  }

  // ---------------------------------------------------------------- the run's end

  /** How the run left: what it raised or returned, and the fact recorded for its job. */
  datatype Exit = Summary(teardownFaulted: bool) | DriveFailure | RaisedTeardown | RaisedTaint | RaisedOther

  datatype Ending = Ending(exit: Exit, scrubVerified: bool)

  predicate InFlight(drive: Drive) { drive.Fails? || drive.boxEnding }

  /** The verdict says the walk ran whole. */
  predicate Says(v: OnFile) { v.Doc? && v.verdict.ran == Some(true) }

  function EndOf(v: OnFile, env: Env): Ending {
    var (after, reap) := Reaped(v, env, InFlight(env.drive));
    match reap
    case TeardownFault => Ending(RaisedTeardown, false)
    case Tainted => Ending(RaisedTaint, false)
    case OtherFailure => Ending(RaisedOther, false)
    case _ =>
      if env.finalReads && Foreign(after) then Ending(RaisedOther, false)
      else Ending(if env.drive.Fails? then DriveFailure else Summary(reap.BoxMayLive?), env.finalReads && Says(after))
  }

  /** `_run_investigation_lifecycle` from the drive on: the reap runs in its `finally`, and what the
      reap raises replaces what the drive raised. */
  method RunLifecycle(tree: RunTree, env: Env) returns (ending: Ending)
    modifies tree
    ensures ending == EndOf(old(tree.verdict), env)
    ensures ending.scrubVerified <==> CalledVerified(old(tree.verdict), env)
    ensures ending.exit == RaisedTaint <==>
            env.stop.Down? && exists i :: 0 <= i < |env.walk| && !Permitted(env.walk[i])
    ensures ending.exit == RaisedTeardown <==> env.stop.Faults? && env.drive == Ends(false)
    ensures env.drive.Fails? ==> (ending.exit == DriveFailure <==> DriveFailureStands(old(tree.verdict), env))
    ensures ending.exit == Summary(false) <==>
            env.drive.Ends? && Clean(env) && !env.sweepFails && !SpoiltAtTheEnd(old(tree.verdict), env)
    ensures ending.exit == Summary(true) <==>
            env.drive == Ends(true) && env.stop.Faults? && !SpoiltAtTheEnd(old(tree.verdict), env)
    ensures tree.walks == old(tree.walks) + (if env.stop.Down? then 1 else 0)
  {
    VerifiedExactlyWhen(tree.verdict, env);
    TaintOutranksEverything(tree.verdict, env);
    TeardownNeverReplacesADriveFailure(tree.verdict, env);
    if env.drive.Fails? { DriveFailureStandsExactlyWhen(tree.verdict, env); }
    SummaryExactlyWhen(tree.verdict, env);
    var investigationOk, boxEnding, scrubVerified := false, false, false;
    if env.drive.Ends? {
      investigationOk := true;
      boxEnding := env.drive.boxEnding;
    }
    var reap := tree.StopAndScrub(env, boxEnding || !investigationOk);
    if reap.TeardownFault? { return Ending(RaisedTeardown, scrubVerified); }
    if reap.Tainted? { return Ending(RaisedTaint, scrubVerified); }
    if reap.OtherFailure? { return Ending(RaisedOther, scrubVerified); }
    var verified := tree.Verified(env.finalReads);
    if verified.None? { return Ending(RaisedOther, scrubVerified); }
    scrubVerified := verified.value;
    if !investigationOk { return Ending(DriveFailure, scrubVerified); }
    return Ending(Summary(reap.BoxMayLive?), scrubVerified);
  }

  // ---------------------------------------------------------------- the promises

  /** The stop returned and everything the walk met was permitted. */
  predicate Clean(env: Env) {
    env.stop.Down? && forall i :: 0 <= i < |env.walk| ==> Permitted(env.walk[i])
  }

  /** When a tree is called verified, whatever verdict it had: cleanly reaped, the sweep fine, and the
      verdict left saying so by the scrub or by the earlier file; or the stop failed under a drive
      already failing or ended, and neither the earlier file nor its replacement got in the way. */
  predicate CalledVerified(v: OnFile, env: Env) {
    && env.finalReads
    && (|| (Clean(env) && !env.sweepFails && (env.scrubWrites || Says(v))
            && (env.sandboxed || !env.markWrites || env.markReads))
        || (env.stop.Faults? && InFlight(env.drive) && !env.skipWrites && Says(v)))
  }

  lemma VerifiedExactlyWhen(v: OnFile, env: Env)
    ensures EndOf(v, env).scrubVerified <==> CalledVerified(v, env)
  {
    FindingsTellTheWalk(env.walk);
    assert !Partial([]);
  }

  /** Starting with no verdict, a tree is called verified exactly when the stop returned, everything
      the walk met was permitted, the sweep was fine and the verdict's own writes and reads worked. */
  lemma VerifiedExactlyWhenClean(env: Env)
    ensures EndOf(Missing, env).scrubVerified <==>
            && env.stop.Down? && (forall i :: 0 <= i < |env.walk| ==> Permitted(env.walk[i])) && !env.sweepFails
            && env.scrubWrites && (env.sandboxed || !env.markWrites || env.markReads) && env.finalReads
  {
    VerifiedExactlyWhen(Missing, env);
  }

  /** A verdict left from before is not proof: being called verified means a clean reap, whatever
      happens, exactly when the file did not already say `ran: true`. */
  lemma StaleVerdictMisleads(v: OnFile)
    ensures (forall env :: EndOf(v, env).scrubVerified ==> Clean(env)) <==> !Says(v)
  {
    if Says(v) {
      var env := Env(Fails, Faults, true, [], false, true, true, true, false, true);
      assert EndOf(v, env).scrubVerified && !Clean(env);
    } else {
      forall env | EndOf(v, env).scrubVerified ensures Clean(env) { FindingsTellTheWalk(env.walk); }
    }
  }

  /** Whatever the drive and the verdict writes did, a taint found on a stopped box is what is
      raised, and nothing else is ever raised as one. */
  lemma TaintOutranksEverything(v: OnFile, env: Env)
    ensures EndOf(v, env).exit == RaisedTaint <==>
            env.stop.Down? && exists i :: 0 <= i < |env.walk| && !Permitted(env.walk[i])
  {
    FindingsTellTheWalk(env.walk);
  }

  /** A teardown fault is raised only over a drive that ended well and not by its box's ending; over
      any other it is only recorded. */
  lemma TeardownNeverReplacesADriveFailure(v: OnFile, env: Env)
    ensures EndOf(v, env).exit == RaisedTeardown <==> env.stop.Faults? && env.drive == Ends(false)
    ensures EndOf(v, env).exit == Summary(false) ==> env.stop.Down? && env.drive.Ends?
    ensures EndOf(v, env).exit == Summary(true) ==> env.stop.Faults? && env.drive == Ends(true)
  {
    FindingsTellTheWalk(env.walk);
  }

  /** Something foreign was on file from the start, nothing written since replaced it, and it is read
      at the end. */
  predicate SpoiltAtTheEnd(v: OnFile, env: Env) {
    && env.finalReads && Foreign(v)
    && (if env.stop.Faults? then !env.skipWrites else !env.scrubWrites && (env.sandboxed || !env.markWrites))
  }

  /** Nothing the reap raises replaces the drive's failure, and nor does the last read of the verdict. */
  predicate DriveFailureStands(v: OnFile, env: Env) {
    (env.stop.Faults? || (Clean(env) && !env.sweepFails)) && !SpoiltAtTheEnd(v, env)
  }

  /** When a failing drive's own failure is what leaves: always over a failed stop, and after a clean
      reap, unless something foreign stands on file to the end. */
  lemma DriveFailureStandsExactlyWhen(v: OnFile, env: Env)
    requires env.drive.Fails?
    ensures EndOf(v, env).exit == DriveFailure <==> DriveFailureStands(v, env)
  {
    FindingsTellTheWalk(env.walk);
  }

  /** When a run ends by returning: its drive did, and the reap was clean, or the box had ended the drive
      and its stop failed, which the summary then says. */
  lemma SummaryExactlyWhen(v: OnFile, env: Env)
    ensures EndOf(v, env).exit == Summary(false) <==>
            env.drive.Ends? && Clean(env) && !env.sweepFails && !SpoiltAtTheEnd(v, env)
    ensures EndOf(v, env).exit == Summary(true) <==>
            env.drive == Ends(true) && env.stop.Faults? && !SpoiltAtTheEnd(v, env)
    ensures EndOf(v, env).exit == RaisedOther <==>
            || env.stop.Crashes? || (Clean(env) && env.sweepFails)
            || (((env.stop.Faults? && InFlight(env.drive)) || Clean(env)) && SpoiltAtTheEnd(v, env))
  {
    FindingsTellTheWalk(env.walk);
  }

  /** Without an earlier verdict, or over one a run here wrote, a failed stop never hides the drive's
      failure; over bytes that are not a verdict it can. */
  lemma ForeignVerdictHidesTheFailure(v: OnFile)
    ensures (forall env: Env :: env.drive.Fails? && env.stop.Faults? ==> EndOf(v, env).exit == DriveFailure)
            <==> !(v.NotText? || v.NotAnObject?)
  {
    if Foreign(v) {
      var env := Env(Fails, Faults, true, [], false, true, true, true, false, true);
      assert EndOf(v, env).exit == RaisedOther;
    }
  }
}

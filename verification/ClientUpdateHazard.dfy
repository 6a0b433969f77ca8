/** The one event that breaks the client's self-update can happen: from every
    installation a run leads into the window between switching and clearing. */
module ClientUpdateHazard {
  import opened Prelude
  import opened ClientUpdater
  import opened ClientUpdateSafety
  import opened ClientUpdateProgress

  /** The updater has just switched `current`. */
  lemma UpToSwitched(c: Client, revision: string, name: string) returns (events: seq<Event>)
    requires Installed(c) && c.versions[c.current].revision != revision
    requires name != c.current && IsVersionName(name)
    ensures At(Run(c, events), PID) == Some(Switched(c.nextCheck, name, c.current))
  {
    var linked := UpToLinked(c, c.nextCheck, revision, name);
    RunOne(c, linked, SwitchCurrent(PID));
    events := linked + [SwitchCurrent(PID)];
  }

  lemma {:induction false} HazardInTheEnd(c: Client, events: seq<Event>, e: Event)
    requires Hazard(Run(c, events), e)
    ensures !HazardFree(c, events + [e])
    decreases |events|
  {
    if events == [] {
      assert events + [e] == [e];
    } else {
      assert (events + [e])[1..] == events[1..] + [e];
      HazardInTheEnd(Step(c, events[0]), events[1..], e);
    }
  }

  lemma LongerName(name: string)
    requires IsVersionName(name)
    ensures name + "0" != name && IsVersionName(name + "0")
  {
    assert |name + "0"| == |name| + 1;
  }

  /** Main result: from every installation there is a run in which a trapped
      signal leaves `current` without its scripts: whenever the server offers
      another revision and the signal arrives right after the switch. */
  lemma HazardIsReachable(c: Client, revision: string) returns (events: seq<Event>)
    requires Installed(c) && c.versions[c.current].revision != revision
    ensures !HazardFree(c, events) && !AlwaysComplete(c, events)
  {
    LongerName(c.current);
    var switched := UpToSwitched(c, revision, c.current + "0");
    events := switched + [Fail(PID, None)];
    HazardInTheEnd(c, switched, Fail(PID, None));
    CurrentAlwaysComplete(c, events);
  }
}

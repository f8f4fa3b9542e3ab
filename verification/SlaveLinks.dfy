/**
 When a slave device counts as connected, and when it is asked for anything, over every run of the polling
 thread, told by the calls into the network library and what became of them.
 */
module SlaveLinks {
  import opened Options
  import opened SlavePolling

  // --------------------------------------------------------------------------
  // Connected means: connected at the last attempt, and nothing has failed since
  // --------------------------------------------------------------------------

  /** Whether the calls made leave device i with a connection; a serial one survives failures. */
  function Linked(calls: seq<Call>, i: nat, serial: bool): bool {
    if |calls| == 0 then false
    else
      var before, last := calls[..|calls| - 1], calls[|calls| - 1];
      if last.device != i then Linked(before, i, serial)
      else if last.kind == Connecting then last.ok
      else Linked(before, i, serial) && (last.ok || serial)
  }

  predicate StillLinked(calls: seq<Call>, k: nat, i: nat, serial: bool)
    requires k < |calls|
  {
    && calls[k] == Call(i, Connecting, true)
    && forall j :: k < j < |calls| && calls[j].device == i ==> calls[j].kind != Connecting && (calls[j].ok || serial)
  }

  /** The same without recursion: the last attempt to connect succeeded, and every request since did, unless
      the device is serial. */
  lemma {:induction false} LinkedMeaning(calls: seq<Call>, i: nat, serial: bool)
    ensures Linked(calls, i, serial) <==> exists k :: 0 <= k < |calls| && StillLinked(calls, k, i, serial)
    decreases |calls|
  {
    if |calls| > 0 {
      var n := |calls| - 1;
      var before, last := calls[..n], calls[n];
      LinkedMeaning(before, i, serial);
      assert forall k :: 0 <= k < n ==> before[k] == calls[k];
      assert forall k :: 0 <= k < n && StillLinked(calls, k, i, serial) ==> StillLinked(before, k, i, serial);
      if Linked(calls, i, serial) {
        if last.device == i && last.kind == Connecting {
          assert StillLinked(calls, n, i, serial);
        } else {
          var k :| 0 <= k < n && StillLinked(before, k, i, serial);
          assert StillLinked(calls, k, i, serial);
        }
      }
    }
  }

  lemma LinkedAfter(calls: seq<Call>, c: Call, i: nat, serial: bool)
    ensures Linked(calls + [c], i, serial) ==
      if c.device != i then Linked(calls, i, serial)
      else if c.kind == Connecting then c.ok
      else Linked(calls, i, serial) && (c.ok || serial)
  {
    assert (calls + [c])[..|calls|] == calls;
  }

  predicate Serial(devs: seq<Device>, i: nat)
    requires i < |devs|
  {
    devs[i].protocol == Rtu
  }

  predicate LinksTold(devs: seq<Device>, s: State) {
    |s.connected| == |devs| && forall i :: 0 <= i < |devs| ==> s.connected[i] == Linked(s.calls, i, Serial(devs, i))
  }

  predicate CallTells(devs: seq<Device>, s: State, s': State)
    requires |s.connected| == |s'.connected| == |devs|
  {
    && s.device < |devs| && |s'.calls| == |s.calls| + 1 && s'.calls[..|s.calls|] == s.calls
    && var c := s'.calls[|s.calls|];
    && c.device == s.device && (c.kind == Connecting <==> s.stage == Begin)
    && forall i | 0 <= i < |devs| ::
         s'.connected[i] == if i != c.device then s.connected[i]
                            else if c.kind == Connecting then c.ok
                            else s.connected[i] && (c.ok || Serial(devs, i))
  }

  /** One step makes at most one call, and that call tells what becomes of the connections. */
  lemma CallOfStep(devs: seq<Device>, s: State, step: Step)
    requires Fits(devs) && Inv(devs, s)
    ensures var s' := Next(devs, s, step);
      && |s.connected| == |s'.connected| == |devs|
      && (s'.calls == s.calls ==> s'.connected == s.connected)
      && (s'.calls != s.calls ==> CallTells(devs, s, s'))
  {
    DeviceInside(devs, s);
    hide Fits, Inv, PollStep, Overlay;
    if step.Poll? {
      if s.device == |devs| {
        RoundCallsNothing(devs, s, step.outcome);
      } else if s.stage == Begin {
        ConnectingCalls(devs, s, step.outcome);
      } else {
        RequestCalls(devs, s, step.outcome);
      }
    }
  }

  lemma RoundCallsNothing(devs: seq<Device>, s: State, o: Outcome)
    requires Fits(devs) && Inv(devs, s) && s.device == |devs|
    ensures PollStep(devs, s, o).calls == s.calls && PollStep(devs, s, o).connected == s.connected
  {
    hide Fits, ExpectedIndices;
  }

  lemma ConnectingCalls(devs: seq<Device>, s: State, o: Outcome)
    requires Fits(devs) && Inv(devs, s) && s.device < |devs| && s.stage == Begin
    ensures var s' := PollStep(devs, s, o);
      || (s'.calls == s.calls && s'.connected == s.connected)
      || (s'.calls == s.calls + [Call(s.device, Connecting, o != Failure)] && !s.connected[s.device]
          && s'.connected == s.connected[s.device := o != Failure])
  {
    hide Fits, PortConnected, ExpectedIndices;
  }

  lemma RequestCalls(devs: seq<Device>, s: State, o: Outcome)
    requires Fits(devs) && Inv(devs, s) && s.device < |devs| && s.stage != Begin
    ensures var s' := PollStep(devs, s, o);
      || (s'.calls == s.calls && s'.connected == s.connected)
      || (|s'.calls| == |s.calls| + 1 && s'.calls == s.calls + [s'.calls[|s.calls|]]
          && var c := s'.calls[|s.calls|];
          && c.device == s.device && c.kind != Connecting
          && s'.connected == if c.ok || Serial(devs, s.device) then s.connected else s.connected[s.device := false])
  {
    hide Fits, PortConnected, ExpectedIndices, Splice;
  }

  /** After every run, the devices that the thread holds for connected are those that its calls left so. */
  lemma {:induction false} LinksOfRun(devs: seq<Device>, steps: seq<Step>)
    requires Fits(devs) && Inv(devs, Initial(devs))
    ensures LinksTold(devs, Run(devs, Initial(devs), steps))
    decreases |steps|
  {
    if |steps| == 0 {
      NoCallsYet(devs);
    } else {
      var before, step := steps[..|steps|-1], steps[|steps|-1];
      hide Initial, Fits, Inv, Run, Next;
      assert steps == before + [step];
      LinksOfRun(devs, before);
      RunNext(devs, before, step);
      LinksAfterStep(devs, Run(devs, Initial(devs), before), step);
    }
  }

  lemma NoCallsYet(devs: seq<Device>)
    requires Fits(devs) && Inv(devs, Initial(devs))
    ensures LinksTold(devs, Run(devs, Initial(devs), []))
  {
  }

  lemma LinksAfterStep(devs: seq<Device>, s: State, step: Step)
    requires Fits(devs) && Inv(devs, s) && LinksTold(devs, s)
    ensures LinksTold(devs, Next(devs, s, step))
  {
    hide Fits, Inv, Next, Linked;
    var s' := Next(devs, s, step);
    CallOfStep(devs, s, step);
    if s'.calls != s.calls {
      var c := s'.calls[|s.calls|];
      assert s'.calls == s.calls + [c];
      forall i | 0 <= i < |devs|
        ensures s'.connected[i] == Linked(s'.calls, i, Serial(devs, i))
      {
        LinkedAfter(s.calls, c, i, Serial(devs, i));
      }
    }
  }

  // --------------------------------------------------------------------------
  // A device is asked only in a visit that began with a connection
  // --------------------------------------------------------------------------

  predicate SameLine(devs: seq<Device>, i: nat, a: nat)
    requires i < |devs| && a < |devs|
  {
    devs[a].address == devs[i].address
  }

  /** Another device on the same serial line is connected. */
  ghost predicate LineOpen(devs: seq<Device>, calls: seq<Call>, i: nat)
    requires i < |devs|
  {
    Serial(devs, i) && exists a :: 0 <= a < |devs| && a != i && SameLine(devs, i, a) && Linked(calls, a, Serial(devs, a))
  }

  /** Step p began a visit to device i, which was connected, or on a line that was, or has then been connected;
      from then on up to call n, only this device was called. */
  ghost predicate Visit(devs: seq<Device>, steps: seq<Step>, p: nat, calls: seq<Call>, n: nat, i: nat)
    requires Fits(devs) && Inv(devs, Initial(devs))
  {
    && p < |steps| && i < |devs| && n <= |calls| && steps[p].Poll?
    && var s := Run(devs, Initial(devs), steps[..p]);
    && s.device == i && s.stage == Begin && |s.calls| <= n && s.calls == calls[..|s.calls|]
    && (forall m :: |s.calls| <= m < n ==> calls[m].device == i)
    && (Linked(s.calls, i, Serial(devs, i)) || LineOpen(devs, s.calls, i) || steps[p].outcome != Failure)
  }

  ghost predicate RequestsVisit(devs: seq<Device>, steps: seq<Step>, s: State)
    requires Fits(devs) && Inv(devs, Initial(devs))
  {
    && (forall n :: 0 <= n < |s.calls| && s.calls[n].kind != Connecting ==>
          exists p :: Visit(devs, steps, p, s.calls, n, s.calls[n].device))
    && (s.device < |devs| && s.stage != Begin ==> exists p :: Visit(devs, steps, p, s.calls, |s.calls|, s.device))
  }

  lemma VisitStays(devs: seq<Device>, steps: seq<Step>, step: Step, p: nat, calls: seq<Call>, n: nat, i: nat,
    more: seq<Call>)
    requires Fits(devs) && Inv(devs, Initial(devs)) && Visit(devs, steps, p, calls, n, i)
    requires forall m :: 0 <= m < |more| ==> more[m].device == i
    ensures Visit(devs, steps + [step], p, calls + more, n, i)
    ensures n == |calls| ==> Visit(devs, steps + [step], p, calls + more, |calls + more|, i)
  {
    hide Run, Fits, Inv, Initial, Linked, LineOpen;
    assert (steps + [step])[..p] == steps[..p] && (steps + [step])[p] == steps[p];
  }

  /** Leaving the first stage of a device means that there is a connection. */
  lemma VisitBegins(devs: seq<Device>, s: State, o: Outcome)
    requires Fits(devs) && Inv(devs, s) && s.device < |devs| && s.stage == Begin
    ensures |s.connected| == |devs|
    ensures var s' := PollStep(devs, s, o);
      if s.connected[s.device] || PortConnected(devs, s.connected, s.device) || o != Failure
      then s'.device == s.device && s'.stage == ReadBits
      else s'.device == s.device + 1 && s'.stage == Begin
  {
    hide Fits, ExpectedIndices, PortConnected;
  }

  lemma BeginsByPoll(devs: seq<Device>, s: State, step: Step)
    requires Fits(devs) && Inv(devs, s) && s.stage == Begin && Next(devs, s, step).stage != Begin
    ensures step.Poll? && s.device < |devs| && Next(devs, s, step) == PollStep(devs, s, step.outcome)
  {
    hide Fits, PortConnected, ExpectedIndices;
    DeviceInside(devs, s);
  }

  lemma VisitGoesOn(devs: seq<Device>, s: State, step: Step)
    requires Fits(devs) && Inv(devs, s)
    ensures var s' := Next(devs, s, step);
      && (s.device < |devs| && s.stage != Begin && s'.stage != Begin ==> s'.device == s.device)
      && (s.device == |devs| ==> s.stage == Begin && s'.stage == Begin)
      && (step.Scan? ==> s'.device == s.device && s'.stage == s.stage && s'.calls == s.calls)
  {
    hide Fits, PortConnected, Overlay, Splice, ExpectedIndices;
  }

  /** Every request of every run was made in a visit that began with a connection. */
  lemma {:induction false} RequestsOfRun(devs: seq<Device>, steps: seq<Step>)
    requires Fits(devs) && Inv(devs, Initial(devs))
    ensures RequestsVisit(devs, steps, Run(devs, Initial(devs), steps))
    decreases |steps|
  {
    if |steps| == 0 {
      NothingAsked(devs);
    } else {
      var before, step := steps[..|steps|-1], steps[|steps|-1];
      hide Initial, Fits, Inv, Run, Next;
      assert steps == before + [step];
      RequestsOfRun(devs, before);
      RunNext(devs, before, step);
      RequestsAfterStep(devs, before, step);
    }
  }

  lemma NothingAsked(devs: seq<Device>)
    requires Fits(devs) && Inv(devs, Initial(devs))
    ensures RequestsVisit(devs, [], Run(devs, Initial(devs), []))
  {
  }

  lemma RequestsAfterStep(devs: seq<Device>, before: seq<Step>, step: Step)
    requires Fits(devs) && Inv(devs, Initial(devs))
    requires RequestsVisit(devs, before, Run(devs, Initial(devs), before))
    ensures RequestsVisit(devs, before + [step], Run(devs, Initial(devs), before + [step]))
  {
    hide Initial, Fits, Inv, Run, Next, Visit, PollStep, CallTells;
    var s := Run(devs, Initial(devs), before);
    RunNext(devs, before, step);
    var s' := Next(devs, s, step);
    var more := CallsAdded(devs, s, step);
    VisitGoesOn(devs, s, step);
    DeviceInside(devs, s);
    forall n | 0 <= n < |s'.calls| && s'.calls[n].kind != Connecting
      ensures exists p :: Visit(devs, before + [step], p, s'.calls, n, s'.calls[n].device)
    {
      if n < |s.calls| {
        var p :| Visit(devs, before, p, s.calls, n, s.calls[n].device);
        EarlierVisit(devs, before, step, p, s.calls, n, s.calls[n].device, more);
      } else {
        var p :| Visit(devs, before, p, s.calls, |s.calls|, s.device);
        EarlierVisit(devs, before, step, p, s.calls, n, s.device, more);
      }
    }
    if s'.device < |devs| && s'.stage != Begin {
      if s.stage == Begin {
        NewVisit(devs, before, step);
      } else {
        var p :| Visit(devs, before, p, s.calls, |s.calls|, s.device);
        VisitStays(devs, before, step, p, s.calls, |s.calls|, s.device, more);
      }
    }
  }

  lemma EarlierVisit(devs: seq<Device>, steps: seq<Step>, step: Step, p: nat, calls: seq<Call>, n: nat, i: nat,
    more: seq<Call>)
    requires Fits(devs) && Inv(devs, Initial(devs)) && Visit(devs, steps, p, calls, n, i)
    ensures Visit(devs, steps + [step], p, calls + more, n, i)
  {
    hide Run, Fits, Inv, Initial, Linked, LineOpen;
    assert (steps + [step])[..p] == steps[..p] && (steps + [step])[p] == steps[p];
  }

  lemma CallsAdded(devs: seq<Device>, s: State, step: Step) returns (more: seq<Call>)
    requires Fits(devs) && Inv(devs, s)
    ensures Next(devs, s, step).calls == s.calls + more && |more| <= 1
    ensures forall m :: 0 <= m < |more| ==>
      s.device < |devs| && more[m].device == s.device && (more[m].kind == Connecting <==> s.stage == Begin)
  {
    hide Fits, Inv, Next;
    CallOfStep(devs, s, step);
    var s' := Next(devs, s, step);
    if s'.calls == s.calls {
      more := [];
      assert s.calls + more == s.calls;
    } else {
      more := [s'.calls[|s.calls|]];
    }
  }

  lemma NewVisit(devs: seq<Device>, before: seq<Step>, step: Step)
    requires Fits(devs) && Inv(devs, Initial(devs))
    requires var s, s' := Run(devs, Initial(devs), before), Run(devs, Initial(devs), before + [step]);
      s.stage == Begin && s'.device < |devs| && s'.stage != Begin
    ensures var s' := Run(devs, Initial(devs), before + [step]);
      Visit(devs, before + [step], |before|, s'.calls, |s'.calls|, s'.device)
  {
    hide Initial, Fits, Inv, Run, Next, PollStep, Linked;
    var s := Run(devs, Initial(devs), before);
    RunNext(devs, before, step);
    var s' := Next(devs, s, step);
    var more := CallsAdded(devs, s, step);
    VisitGoesOn(devs, s, step);
    BeginsByPoll(devs, s, step);
    VisitBegins(devs, s, step.outcome);
    LinksOfRun(devs, before);
    assert (before + [step])[..|before|] == before;
    if PortConnected(devs, s.connected, s.device) {
      assert LineOpen(devs, s.calls, s.device);
    }
  }
}

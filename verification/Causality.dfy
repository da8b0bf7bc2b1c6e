/**
 Every frame that leaves a channel entered it before, each at its own earlier moment and in the same
 order. Chaining the channels gives each confirmation its own message, forwarding and receipt.
 */
module Causality {
  import opened Basics
  import opened ChatSystem
  import opened Flows
  import opened History

  /** The times `ts` increase and are before `n`. */
  ghost predicate Increasing(ts: seq<nat>, n: nat) {
    && (forall i, j :: 0 <= i < j < |ts| ==> ts[i] < ts[j])
    && (forall i :: 0 <= i < |ts| ==> ts[i] < n)
  }

  /** The positions in the log at which the items of flow `f` entered it at connection `k`. */
  function EnterTimes(f: Flow, k: nat, log: seq<Event>): (ts: seq<nat>)
    ensures |ts| == |Entered(f, k, log)|
  {
    if log == [] then []
    else EnterTimes(f, k, Front(log)) + (if Enters(f, k, Front(log), Last(log)) == [] then [] else [|log| - 1])
  }

  /** The positions in the log at which the items of flow `f` left it at connection `k`. */
  function LeaveTimes(f: Flow, k: nat, log: seq<Event>): (ts: seq<nat>)
    ensures |ts| == |Left(f, k, log)|
  {
    if log == [] then []
    else LeaveTimes(f, k, Front(log)) + (if Leaves(f, k, Last(log)) == [] then [] else [|log| - 1])
  }

  lemma OneMoreTime(ts: seq<nat>, n: nat)
    requires Increasing(ts, n)
    ensures Increasing(ts, n + 1) && Increasing(ts + [n], n + 1)
  {
  }

  lemma {:induction false} EnterTimesIncrease(f: Flow, k: nat, log: seq<Event>)
    ensures Increasing(EnterTimes(f, k, log), |log|)
  {
    if log == [] {
    } else {
      EnterTimesIncrease(f, k, Front(log));
      var before := EnterTimes(f, k, Front(log));
      OneMoreTime(before, |log| - 1);
      assert before + [] == before;
    }
  }

  lemma {:induction false} LeaveTimesIncrease(f: Flow, k: nat, log: seq<Event>)
    ensures Increasing(LeaveTimes(f, k, log), |log|)
  {
    if log == [] {
    } else {
      LeaveTimesIncrease(f, k, Front(log));
      var before := LeaveTimes(f, k, Front(log));
      OneMoreTime(before, |log| - 1);
      assert before + [] == before;
    }
  }

  lemma {:induction false} EnterTimesCarry(f: Flow, k: nat, log: seq<Event>, n: nat)
    requires n < |Entered(f, k, log)|
    ensures var p := EnterTimes(f, k, log)[n];
            p < |log| && Enters(f, k, log[..p], log[p]) == [Entered(f, k, log)[n]]
  {
    if n == |Entered(f, k, Front(log))| {
    } else {
      EnterTimesCarry(f, k, Front(log), n);
      var p := EnterTimes(f, k, Front(log))[n];
      assert Front(log)[..p] == log[..p];
    }
  }

  lemma {:induction false} LeaveTimesCarry(f: Flow, k: nat, log: seq<Event>, n: nat)
    requires n < |Left(f, k, log)|
    ensures var p := LeaveTimes(f, k, log)[n];
            p < |log| && Leaves(f, k, log[p]) == [Left(f, k, log)[n]]
  {
    if n == |Left(f, k, Front(log))| {
    } else {
      LeaveTimesCarry(f, k, Front(log), n);
    }
  }

  lemma {:induction false} LeaveTimesComplete(f: Flow, k: nat, log: seq<Event>, p: nat) returns (n: nat)
    requires p < |log| && Leaves(f, k, log[p]) != []
    ensures n < |LeaveTimes(f, k, log)| && LeaveTimes(f, k, log)[n] == p
  {
    if p < |log| - 1 {
      n := LeaveTimesComplete(f, k, Front(log), p);
    } else {
      n := |LeaveTimes(f, k, log)| - 1;
    }
  }

  /** In flow `f` at connection `k`, item number `n` is read after it was written. */
  ghost predicate InTime(f: Flow, k: nat, log: seq<Event>) {
    && |LeaveTimes(f, k, log)| <= |EnterTimes(f, k, log)|
    && forall n :: 0 <= n < |LeaveTimes(f, k, log)| ==> EnterTimes(f, k, log)[n] < LeaveTimes(f, k, log)[n]
  }

  lemma NotBoth(f: Flow, k: nat, log: seq<Event>, e: Event)
    ensures Leaves(f, k, e) == [] || Enters(f, k, log, e) == []
  {
  }

  lemma InTimeGrows(f: Flow, k: nat, log: seq<Event>, e: Event)
    requires InTime(f, k, log)
    requires |Left(f, k, log + [e])| <= |Entered(f, k, log + [e])|
    ensures InTime(f, k, log + [e])
  {
    Snoc(log, e);
    NotBoth(f, k, log, e);
    EnterTimesIncrease(f, k, log);
    LeaveTimesIncrease(f, k, log);
  }

  /** What has left each flow is the beginning of what has entered it, and each item in time. */
  lemma {:induction false} RunsAreCausal(names: seq<string>, steps: seq<Step>, f: Flow, k: nat)
    requires k < |names|
    ensures var log := Exec(Init(names), steps).log;
            Left(f, k, log) <= Entered(f, k, log) && InTime(f, k, log)
  {
    var s := Reached(names, steps);
    assert Conserved(s, f, k);
    if steps != [] {
      var r, st := Exec(Init(names), Front(steps)), Last(steps);
      RunsAreCausal(names, Front(steps), f, k);
      if Enabled(r, st) {
        var es := Events(r, st);
        assert s.log == r.log + es;
        if es != [] {
          assert es == [es[0]];
          InTimeGrows(f, k, r.log, es[0]);
        } else {
          assert s.log == r.log;
        }
      }
    }
  }

  /** `q` is where the frame that event `p` takes out of flow `f` had entered it. */
  ghost predicate IsOrigin(f: Flow, k: nat, log: seq<Event>, p: nat, q: nat) {
    exists n :: 0 <= n < |LeaveTimes(f, k, log)| && n < |EnterTimes(f, k, log)|
                && LeaveTimes(f, k, log)[n] == p && EnterTimes(f, k, log)[n] == q
  }

  /** Every reading has an origin; it is strictly earlier and carries the same item. */
  lemma OriginOf(names: seq<string>, steps: seq<Step>, f: Flow, k: nat, p: nat) returns (q: nat)
    requires k < |names|
    requires var log := Exec(Init(names), steps).log;
             p < |log| && Leaves(f, k, log[p]) != []
    ensures var log := Exec(Init(names), steps).log;
            && q < p && IsOrigin(f, k, log, p, q)
            && Enters(f, k, log[..q], log[q]) == Leaves(f, k, log[p])
  {
    var log := Exec(Init(names), steps).log;
    var n := LeaveTimesComplete(f, k, log, p);
    RunsAreCausal(names, steps, f, k);
    q := EnterTimes(f, k, log)[n];
    EnterTimesCarry(f, k, log, n);
    LeaveTimesCarry(f, k, log, n);
  }

  /** Frames are read in the order in which they were written, so an origin belongs to one reading. */
  lemma OriginsInOrder(f: Flow, k: nat, log: seq<Event>, p: nat, q: nat, p': nat, q': nat)
    requires IsOrigin(f, k, log, p, q) && IsOrigin(f, k, log, p', q')
    ensures (p < p' <==> q < q') && (p == p' <==> q == q')
  {
    EnterTimesIncrease(f, k, log);
    LeaveTimesIncrease(f, k, log);
  }

  /** The past of a confirmation: the message was sent, forwarded and received, in that order. */
  datatype Trace = Trace(i: nat, text: string, sent: nat, routed: nat, delivered: nat)

  ghost predicate IsTraceOf(log: seq<Event>, p: nat, h: Trace) {
    && p < |log| && log[p].Confirmed?
    && h.sent < h.routed < h.delivered < p
    && log[h.sent] == Sent(h.i, log[p].b, h.text)
    && log[h.routed] == Routed(h.i, log[p].a, log[p].j, log[p].b, h.text)
    && log[h.delivered] == Delivered(log[p].j, log[p].b, log[p].a, h.text, true)
    && IsOrigin(MorfFlow, log[p].j, log, p, h.delivered)
    && IsOrigin(FromFlow, log[p].j, log, h.delivered, h.routed)
    && IsOrigin(ToFlow, h.i, log, h.routed, h.sent)
  }

  /** Each confirmation is preceded by its message, its forwarding and its receipt, in that order. */
  lemma ConfirmationHasTrace(names: seq<string>, steps: seq<Step>, p: nat) returns (h: Trace)
    requires p < |Exec(Init(names), steps).log| && Exec(Init(names), steps).log[p].Confirmed?
    ensures IsTraceOf(Exec(Init(names), steps).log, p, h)
  {
    var log := Exec(Init(names), steps).log;
    var j := log[p].j;
    EventHolds(names, steps, p);
    var d := OriginOf(names, steps, MorfFlow, j, p);
    EventHolds(names, steps, d);
    var r := OriginOf(names, steps, FromFlow, j, d);
    EventHolds(names, steps, r);
    var t := OriginOf(names, steps, ToFlow, log[r].i, r);
    h := Trace(log[r].i, log[r].text, t, r, d);
  }

  lemma RoutesAreDistinct(log: seq<Event>, p: nat, h: Trace, p': nat, h': Trace)
    requires IsTraceOf(log, p, h) && IsTraceOf(log, p', h') && p != p'
    ensures h.routed != h'.routed && h.delivered != h'.delivered
  {
    var j := log[p].j;
    if log[p'].j == j {
      OriginsInOrder(MorfFlow, j, log, p, h.delivered, p', h'.delivered);
      OriginsInOrder(FromFlow, j, log, h.delivered, h.routed, h'.delivered, h'.routed);
    }
  }

  /** No two confirmations share any part of their traces. */
  lemma TracesAreDistinct(log: seq<Event>, p: nat, h: Trace, p': nat, h': Trace)
    requires IsTraceOf(log, p, h) && IsTraceOf(log, p', h') && p != p'
    ensures h.sent != h'.sent && h.routed != h'.routed && h.delivered != h'.delivered
  {
    RoutesAreDistinct(log, p, h, p', h');
    if h.i == h'.i {
      OriginsInOrder(ToFlow, h.i, log, h.routed, h.sent, h'.routed, h'.sent);
    }
  }
}

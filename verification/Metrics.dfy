/** The bounded tool tally and the latest-sample slot of `src/agent/metrics.rs`. */
module Metrics {
  import opened Text

  const MAX_TOOL_NAMES: nat := 24
  const OTHER_TOOLS := "other"
  const UNNAMED := "tool"
  const U32_MAX: nat := 0xffff_ffff

  datatype ToolCount = ToolCount(name: string, calls: nat, failed: nat)

  function IndexOfName(counts: seq<ToolCount>, name: string): (r: Option<nat>)
    ensures r.Some? ==> r.value < |counts| && counts[r.value].name == name
    ensures r.None? ==> forall i :: 0 <= i < |counts| ==> counts[i].name != name
  {
    if counts == [] then None
    else if counts[0].name == name then Some(0)
    else
      match IndexOfName(counts[1..], name)
      case None => None
      case Some(i) => Some(i + 1)
  }

  /** The slot `count_tool` finds: the name's own, or past the limit the shared one. */
  function ExistingSlot(counts: seq<ToolCount>, name: string): Option<nat> {
    var own := IndexOfName(counts, name);
    if own.Some? then own
    else if |counts| >= MAX_TOOL_NAMES then IndexOfName(counts, OTHER_TOOLS)
    else None
  }

  /** The list with a slot for `name`, and its index. */
  function WithSlot(counts: seq<ToolCount>, name: string): (r: (seq<ToolCount>, nat))
    ensures r.1 < |r.0|
  {
    var slot := ExistingSlot(counts, name);
    if slot.Some? then (counts, slot.value)
    else (counts + [ToolCount(if |counts| >= MAX_TOOL_NAMES then OTHER_TOOLS else name, 0, 0)], |counts|)
  }

  function SaturatingIncrement(n: nat): nat {
    if n < U32_MAX then n + 1 else U32_MAX
  }

  /** One call or one failure of a tool. */
  datatype Event = Event(name: Option<string>, failure: bool)

  function NameOf(e: Event): string {
    if e.name.Some? then e.name.value else UNNAMED
  }

  function Bump(c: ToolCount, failure: bool): ToolCount {
    if failure then c.(failed := SaturatingIncrement(c.failed)) else c.(calls := SaturatingIncrement(c.calls))
  }

  function Tallied(counts: seq<ToolCount>, e: Event): seq<ToolCount> {
    var (counts', i) := WithSlot(counts, NameOf(e));
    counts'[i := Bump(counts'[i], e.failure)]
  }

  /** A reader's list of counts, changed in place by every event. */
  class Tally {
    var counts: seq<ToolCount>

    constructor ()
      ensures counts == []
    {
      counts := [];
    }

    /** `count_tool`: the index of the slot for `name`. */
    method CountTool(name: Option<string>) returns (index: nat)
      modifies this
      ensures (counts, index) == WithSlot(old(counts), if name.Some? then name.value else UNNAMED)
    {
      var tool := if name.Some? then name.value else UNNAMED;
      var own := IndexOfName(counts, tool);
      if own.Some? {
        return own.value;
      }
      if |counts| >= MAX_TOOL_NAMES {
        var other := IndexOfName(counts, OTHER_TOOLS);
        if other.Some? {
          return other.value;
        }
      }
      counts := counts + [ToolCount(if |counts| >= MAX_TOOL_NAMES then OTHER_TOOLS else tool, 0, 0)];
      index := |counts| - 1;
    }

    /** What the readers do with the slot. */
    method Record(e: Event)
      modifies this
      ensures counts == Tallied(old(counts), e)
    {
      var i := CountTool(e.name);
      counts := counts[i := Bump(counts[i], e.failure)];
    }
  }

  function Run(events: seq<Event>): seq<ToolCount> {
    if events == [] then [] else Tallied(Run(events[..|events| - 1]), events[|events| - 1])
  }

  // ---------- What the tally means ----------

  predicate HasName(counts: seq<ToolCount>, name: string) {
    exists i :: 0 <= i < |counts| && counts[i].name == name
  }

  /** Where events of a tool are counted, given the names the tally ends up with. */
  function Bucket(counts: seq<ToolCount>, name: string): string {
    if HasName(counts, name) then name else OTHER_TOOLS
  }

  /** How many of the events are calls (or failures) counted under `bucket`. */
  function Occurrences(events: seq<Event>, counts: seq<ToolCount>, bucket: string, failure: bool): nat {
    if events == [] then 0
    else
      var e := events[|events| - 1];
      Occurrences(events[..|events| - 1], counts, bucket, failure)
      + (if e.failure == failure && Bucket(counts, NameOf(e)) == bucket then 1 else 0)
  }

  function Saturated(n: nat): nat {
    if n < U32_MAX then n else U32_MAX
  }

  predicate IsTally(counts: seq<ToolCount>) {
    && (forall i, j :: 0 <= i < j < |counts| ==> counts[i].name != counts[j].name)
    && |counts| <= MAX_TOOL_NAMES + 1
    && (|counts| == MAX_TOOL_NAMES + 1 ==> counts[MAX_TOOL_NAMES].name == OTHER_TOOLS)
  }

  lemma TalliedIsTally(counts: seq<ToolCount>, e: Event)
    requires IsTally(counts)
    ensures IsTally(Tallied(counts, e)) && |counts| <= |Tallied(counts, e)|
    ensures forall i :: 0 <= i < |counts| ==> Tallied(counts, e)[i].name == counts[i].name
  {
    var (counts', i) := WithSlot(counts, NameOf(e));
    if |counts| == MAX_TOOL_NAMES + 1 {
      assert counts[MAX_TOOL_NAMES].name == OTHER_TOOLS;
    }
  }

  /** Over any events: the names are distinct, at most twenty-five, the twenty-fifth the shared one; and none is
      ever lost or moved. */
  lemma {:induction false} NamesAreKept(events: seq<Event>, more: seq<Event>)
    ensures IsTally(Run(events)) && IsTally(Run(events + more)) && |Run(events)| <= |Run(events + more)|
    ensures forall i :: 0 <= i < |Run(events)| ==> Run(events + more)[i].name == Run(events)[i].name
  {
    hide IsTally, Tallied;
    if more == [] {
      assert events + more == events;
      if events == [] {
        EmptyIsTally();
      } else {
        var n := |events| - 1;
        NamesAreKept(events[..n], []);
        assert events[..n] + [] == events[..n];
        TalliedIsTally(Run(events[..n]), events[n]);
      }
    } else {
      var n := |more| - 1;
      NamesAreKept(events, more[..n]);
      assert (events + more)[..|events| + n] == events + more[..n];
      TalliedIsTally(Run(events + more[..n]), more[n]);
    }
  }

  lemma EmptyIsTally()
    ensures IsTally([])
  {
  }

  /** Every event counted so far has a slot, and below the limit its own. */
  ghost predicate AreSlotted(events: seq<Event>, counts: seq<ToolCount>) {
    forall k :: 0 <= k < |events| ==>
      && HasName(counts, Bucket(counts, NameOf(events[k])))
      && (|counts| < MAX_TOOL_NAMES ==> HasName(counts, NameOf(events[k])))
  }

  lemma NamesAfter(counts: seq<ToolCount>, e: Event, name: string)
    requires IsTally(counts)
    ensures HasName(Tallied(counts, e), name) <==>
              || HasName(counts, name)
              || (|counts| < MAX_TOOL_NAMES && name == NameOf(e))
              || (|counts| >= MAX_TOOL_NAMES && !HasName(counts, NameOf(e)) && name == OTHER_TOOLS)
  {
    TalliedIsTally(counts, e);
    var after := Tallied(counts, e);
    var (grown, i) := WithSlot(counts, NameOf(e));
    assert after[i].name == grown[i].name;
    if HasName(counts, name) {
      var j :| 0 <= j < |counts| && counts[j].name == name;
      assert after[j].name == name;
    }
    if HasName(after, name) {
      var j :| 0 <= j < |after| && after[j].name == name;
      assert j < |counts| ==> counts[j].name == name;
    }
  }

  /** A tool's bucket is settled by its first event. */
  lemma BucketSettles(counts: seq<ToolCount>, e: Event, name: string)
    requires IsTally(counts) && (|counts| < MAX_TOOL_NAMES ==> HasName(counts, name))
    ensures Bucket(Tallied(counts, e), name) == Bucket(counts, name)
  {
    hide Tallied, HasName, IsTally;
    NamesAfter(counts, e, name);
  }

  lemma SlottedAfter(events: seq<Event>, e: Event, counts: seq<ToolCount>)
    requires IsTally(counts) && AreSlotted(events, counts)
    ensures AreSlotted(events + [e], Tallied(counts, e))
  {
    hide Tallied, HasName, IsTally;
    var all, after := events + [e], Tallied(counts, e);
    forall k | 0 <= k < |all|
      ensures HasName(after, Bucket(after, NameOf(all[k])))
      ensures |after| < MAX_TOOL_NAMES ==> HasName(after, NameOf(all[k]))
    {
      var name := NameOf(all[k]);
      if k < |events| {
        assert all[k] == events[k];
        BucketSettles(counts, e, name);
      }
      NamesAfter(counts, e, name);
      NamesAfter(counts, e, Bucket(counts, name));
      NamesAfter(counts, e, OTHER_TOOLS);
      TalliedIsTally(counts, e);
    }
  }

  lemma {:induction false} SameOccurrences(events: seq<Event>, e: Event, counts: seq<ToolCount>, bucket: string,
                                           failure: bool)
    requires IsTally(counts) && AreSlotted(events, counts)
    ensures Occurrences(events, Tallied(counts, e), bucket, failure) == Occurrences(events, counts, bucket, failure)
    ensures !HasName(counts, bucket) ==> Occurrences(events, counts, bucket, failure) == 0
    ensures Occurrences(events, counts, bucket, failure) <= |events|
  {
    hide Tallied, HasName, IsTally, Bucket;
    if events != [] {
      var n := |events| - 1;
      assert AreSlotted(events[..n], counts) by {
        assert forall k :: 0 <= k < n ==> events[..n][k] == events[k];
      }
      SameOccurrences(events[..n], e, counts, bucket, failure);
      BucketSettles(counts, e, NameOf(events[n]));
    }
  }

  /** Every slot holds exactly the calls and failures of its tools, up to the counter's limit. */
  ghost predicate IsExact(events: seq<Event>, counts: seq<ToolCount>) {
    forall i :: 0 <= i < |counts| ==>
      && counts[i].calls == Saturated(Occurrences(events, counts, counts[i].name, false))
      && counts[i].failed == Saturated(Occurrences(events, counts, counts[i].name, true))
  }

  lemma ExactAfter(events: seq<Event>, e: Event, counts: seq<ToolCount>)
    requires IsTally(counts) && AreSlotted(events, counts) && IsExact(events, counts)
    ensures IsExact(events + [e], Tallied(counts, e))
  {
    hide HasName, Bucket;
    var all, after := events + [e], Tallied(counts, e);
    assert all[..|events|] == events;
    TalliedIsTally(counts, e);
    var (grown, slot) := WithSlot(counts, NameOf(e));
    assert after[slot].name == Bucket(after, NameOf(e)) by { SlotIsBucket(counts, e); }
    forall i | 0 <= i < |after|
      ensures after[i].calls == Saturated(Occurrences(all, after, after[i].name, false))
      ensures after[i].failed == Saturated(Occurrences(all, after, after[i].name, true))
    {
      var name := after[i].name;
      SameOccurrences(events, e, counts, name, false);
      SameOccurrences(events, e, counts, name, true);
      assert i != slot ==> after[i].name != after[slot].name;
      if i == |counts| {
        NewSlotIsNew(counts, e);
      }
    }
  }

  lemma SlotIsBucket(counts: seq<ToolCount>, e: Event)
    requires IsTally(counts)
    ensures var (grown, slot) := WithSlot(counts, NameOf(e));
            Tallied(counts, e)[slot].name == Bucket(Tallied(counts, e), NameOf(e))
  {
    NamesAfter(counts, e, NameOf(e));
    var (grown, slot) := WithSlot(counts, NameOf(e));
    assert Tallied(counts, e)[slot].name == grown[slot].name;
    if HasName(counts, NameOf(e)) {
      var j :| 0 <= j < |counts| && counts[j].name == NameOf(e);
      assert IndexOfName(counts, NameOf(e)).Some?;
    }
  }

  lemma NewSlotIsNew(counts: seq<ToolCount>, e: Event)
    requires IsTally(counts) && |WithSlot(counts, NameOf(e)).0| > |counts|
    ensures !HasName(counts, WithSlot(counts, NameOf(e)).0[|counts|].name)
    ensures WithSlot(counts, NameOf(e)).1 == |counts|
    ensures WithSlot(counts, NameOf(e)).0[|counts|].calls == WithSlot(counts, NameOf(e)).0[|counts|].failed == 0
  {
  }

  lemma {:induction false} RunIsSlotted(events: seq<Event>)
    ensures IsTally(Run(events)) && AreSlotted(events, Run(events)) && IsExact(events, Run(events))
  {
    hide IsTally, Tallied, AreSlotted, IsExact;
    if events == [] {
      NothingIsExact();
    } else {
      var n := |events| - 1;
      RunIsSlotted(events[..n]);
      assert events == events[..n] + [events[n]];
      TalliedIsTally(Run(events[..n]), events[n]);
      SlottedAfter(events[..n], events[n], Run(events[..n]));
      ExactAfter(events[..n], events[n], Run(events[..n]));
    }
  }

  lemma NothingIsExact()
    ensures IsTally([]) && AreSlotted([], []) && IsExact([], [])
  {
  }

  /** After any events, every tool's bucket has a slot, and each slot's counts are the calls and failures of the
      tools in it: a tool of its own name, or every tool that came after the limit for the shared one. */
  lemma TallyIsExact(events: seq<Event>)
    ensures var counts := Run(events);
            && (forall k :: 0 <= k < |events| ==> HasName(counts, Bucket(counts, NameOf(events[k]))))
            && (forall i :: 0 <= i < |counts| ==>
                  && counts[i].calls == Saturated(Occurrences(events, counts, counts[i].name, false))
                  && counts[i].failed == Saturated(Occurrences(events, counts, counts[i].name, true)))
  {
    hide HasName, Bucket;
    RunIsSlotted(events);
  }

  // ---------- Totals ----------

  function TotalCalls(counts: seq<ToolCount>): nat {
    if counts == [] then 0 else TotalCalls(counts[..|counts| - 1]) + counts[|counts| - 1].calls
  }

  function CallEvents(events: seq<Event>): nat {
    if events == [] then 0
    else CallEvents(events[..|events| - 1]) + (if events[|events| - 1].failure then 0 else 1)
  }

  /** The calls in the buckets of the first `n` slots, however many. */
  function BucketCalls(events: seq<Event>, counts: seq<ToolCount>, n: nat): nat
    requires n <= |counts|
  {
    if n == 0 then 0
    else BucketCalls(events, counts, n - 1) + Occurrences(events, counts, counts[n - 1].name, false)
  }

  lemma {:induction false} NothingInBuckets(counts: seq<ToolCount>, n: nat)
    requires n <= |counts|
    ensures BucketCalls([], counts, n) == 0
  {
    if n > 0 {
      NothingInBuckets(counts, n - 1);
    }
  }

  /** One more event lands in at most one of the buckets. */
  lemma {:induction false} OneMoreInBuckets(events: seq<Event>, counts: seq<ToolCount>, n: nat)
    requires events != [] && n <= |counts| && IsTally(counts)
    ensures var front, e := events[..|events| - 1], events[|events| - 1];
            var lands := !e.failure && exists i :: 0 <= i < n && counts[i].name == Bucket(counts, NameOf(e));
            BucketCalls(events, counts, n) == BucketCalls(front, counts, n) + if lands then 1 else 0
  {
    hide Bucket;
    if n > 0 {
      OneMoreInBuckets(events, counts, n - 1);
    }
  }

  /** The buckets of all slots hold every call once. */
  lemma {:induction false} BucketsHoldAll(events: seq<Event>, counts: seq<ToolCount>)
    requires IsTally(counts)
    requires forall k :: 0 <= k < |events| ==> HasName(counts, Bucket(counts, NameOf(events[k])))
    ensures BucketCalls(events, counts, |counts|) == CallEvents(events)
  {
    hide Bucket, IsTally, Occurrences;
    if events == [] {
      NothingInBuckets(counts, |counts|);
    } else {
      var n := |events| - 1;
      assert forall k :: 0 <= k < n ==> events[..n][k] == events[k];
      BucketsHoldAll(events[..n], counts);
      OneMoreInBuckets(events, counts, |counts|);
      assert HasName(counts, Bucket(counts, NameOf(events[n])));
    }
  }

  /** Saturating loses something as soon as one bucket holds more than its counter can. */
  lemma {:induction false} TotalIsBuckets(events: seq<Event>, counts: seq<ToolCount>, n: nat)
    requires n <= |counts|
    requires forall i :: 0 <= i < n ==> counts[i].calls == Saturated(Occurrences(events, counts, counts[i].name, false))
    ensures TotalCalls(counts[..n]) <= BucketCalls(events, counts, n)
    ensures TotalCalls(counts[..n]) == BucketCalls(events, counts, n)
            <==> forall i :: 0 <= i < n ==> Occurrences(events, counts, counts[i].name, false) <= U32_MAX
  {
    hide Occurrences;
    if n > 0 {
      TotalIsBuckets(events, counts, n - 1);
      assert counts[..n][..n - 1] == counts[..n - 1];
    }
  }

  /** The calls add up to the call events exactly when no slot's tools were called more often than a counter holds. */
  lemma CallsAddUp(events: seq<Event>)
    ensures var counts := Run(events);
            && TotalCalls(counts) <= CallEvents(events)
            && (TotalCalls(counts) == CallEvents(events)
                <==> forall i :: 0 <= i < |counts| ==> Occurrences(events, counts, counts[i].name, false) <= U32_MAX)
  {
    hide IsTally, Occurrences, Bucket, HasName;
    var counts := Run(events);
    RunIsSlotted(events);
    TallyIsExact(events);
    BucketsHoldAll(events, counts);
    TotalIsBuckets(events, counts, |counts|);
    assert counts[..|counts|] == counts;
  }

  // ---------- replace ----------

  datatype Sample<T> = Sample(at: int, value: T)

  /** `replace`: a later or equal sample takes the slot. */
  function Replace<T>(slot: Option<Sample<T>>, sample: Sample<T>): Option<Sample<T>> {
    if slot.None? || sample.at >= slot.value.at then Some(sample) else slot
  }

  function ReplaceAll<T>(samples: seq<Sample<T>>): Option<Sample<T>> {
    if samples == [] then None else Replace(ReplaceAll(samples[..|samples| - 1]), samples[|samples| - 1])
  }

  /** `k` is the last of the samples with the greatest time. */
  ghost predicate IsLatest<T>(samples: seq<Sample<T>>, k: nat) {
    && k < |samples|
    && (forall i :: 0 <= i < |samples| ==> samples[i].at <= samples[k].at)
    && (forall i :: k < i < |samples| ==> samples[i].at < samples[k].at)
  }

  /** Whatever order samples arrive in, the slot holds the last of the latest. */
  lemma {:induction false} SlotHoldsLatest<T>(samples: seq<Sample<T>>) returns (k: nat)
    requires samples != []
    ensures IsLatest(samples, k) && ReplaceAll(samples) == Some(samples[k])
  {
    var n := |samples| - 1;
    k := n;
    if n > 0 {
      var front := samples[..n];
      var best := SlotHoldsLatest(front);
      if samples[n].at < front[best].at {
        k := best;
        assert forall i :: 0 <= i < n ==> samples[i] == front[i];
      } else {
        assert forall i :: 0 <= i < n ==> samples[i].at == front[i].at <= front[best].at;
      }
    }
  }
}

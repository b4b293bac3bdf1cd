/** What the rows of a target hold, told by the raw samples. */
module RecordedRows {
  import opened Common
  import opened ProbeStore
  import opened ProbeRuns
  import Sorting

  // ---- The samples of a target

  /** A sample of this target, whose kind, id and method are all named. */
  ghost predicate IsOf(s: Sample, k: ProbeKey) {
    && s.target.kind == k.kind && s.target.id == k.id && s.target.probeMethod == k.probeMethod
    && k.kind != "" && k.id != "" && k.probeMethod != ""
  }

  /** `places` are, in order, the places of the target's samples among all samples. */
  ghost predicate ArePlacesOf(samples: seq<Sample>, k: ProbeKey, places: seq<nat>) {
    && Sorting.Increasing(places)
    && (forall n :: 0 <= n < |places| ==> places[n] < |samples| && IsOf(samples[places[n]], k))
    && (forall i :: 0 <= i < |samples| && IsOf(samples[i], k) ==> i in places)
  }

  /** Sample x is as s was recorded: a missing status is read as operational. */
  ghost predicate IsRecordedAs(s: Sample, x: Sample) {
    x == Sample(s.target, if s.status == "" then "ok" else s.status, s.message, s.at)
  }

  ghost predicate AreRecordedAt(samples: seq<Sample>, places: seq<nat>, xs: seq<Sample>) {
    && |xs| == |places|
    && forall n :: 0 <= n < |xs| ==> places[n] < |samples| && IsRecordedAs(samples[places[n]], xs[n])
  }

  lemma PlacesOfOneMore(p: seq<Sample>, s: Sample, k: ProbeKey, places: seq<nat>, xs: seq<Sample>)
    requires ArePlacesOf(p, k, places) && AreRecordedAt(p, places, xs)
    ensures !IsOf(s, k) ==> ArePlacesOf(p + [s], k, places) && AreRecordedAt(p + [s], places, xs)
    ensures IsOf(s, k) ==>
              ArePlacesOf(p + [s], k, places + [|p|]) && AreRecordedAt(p + [s], places + [|p|], xs + [s.Normalized()])
  {
    Sorting.PlacesWithLast(places, |p|);
  }

  /** A target's samples are those of its kind, id and method, in their order. */
  lemma {:induction false} SamplesOfListsTheTarget(samples: seq<Sample>, k: ProbeKey) returns (places: seq<nat>)
    ensures ArePlacesOf(samples, k, places) && AreRecordedAt(samples, places, SamplesOf(samples, k))
  {
    places := [];
    if samples != [] {
      var p, s := samples[..|samples| - 1], samples[|samples| - 1];
      places := SamplesOfListsTheTarget(p, k);
      assert samples == p + [s];
      assert s.Concerns(k) <==> IsOf(s, k);
      PlacesOfOneMore(p, s, k, places, SamplesOf(p, k));
      if s.Concerns(k) {
        places := places + [|p|];
      }
    }
  }

  // ---- The log

  /** A run of one status begins with sample i. */
  ghost predicate BeginsRun(xs: seq<Sample>, i: nat) {
    i < |xs| && (i == 0 || xs[i - 1].status != xs[i].status)
  }

  lemma {:induction false} RunHasAnEnd(xs: seq<Sample>, i: nat, n: nat) returns (j: nat)
    requires i < n <= |xs| && forall m :: i <= m < n ==> xs[m].status == xs[i].status
    ensures n <= j <= |xs| && forall m :: i <= m < j ==> xs[m].status == xs[i].status
    ensures j < |xs| ==> xs[j].status != xs[i].status
    decreases |xs| - n
  {
    if n == |xs| || xs[n].status != xs[i].status {
      j := n;
    } else {
      j := RunHasAnEnd(xs, i, n + 1);
    }
  }

  lemma BeginningsBeginMaximalRuns(xs: seq<Sample>, i: nat)
    ensures BeginsRun(xs, i) <==> exists j: nat :: MaximalRun(xs, i, j)
  {
    if BeginsRun(xs, i) {
      var j := RunHasAnEnd(xs, i, i + 1);
      assert MaximalRun(xs, i, j);
    }
  }

  /** `starts` are, in order, the samples with which a run begins. */
  ghost predicate AreBeginnings(xs: seq<Sample>, starts: seq<nat>) {
    && Sorting.Increasing(starts)
    && (forall n :: 0 <= n < |starts| ==> BeginsRun(xs, starts[n]))
    && (forall i :: BeginsRun(xs, i) ==> i in starts)
  }

  /** The row keeps all that the sample brought. */
  ghost predicate IsRowOf(e: ProbeEvent, x: Sample) {
    e == ProbeEvent(x.target, x.status, x.message, x.at)
  }

  /** Row n of the log is what sample starts[n] brought, all of it. */
  ghost predicate HoldsSamples(log: seq<ProbeEvent>, xs: seq<Sample>, starts: seq<nat>) {
    && |log| == |starts|
    && forall n :: 0 <= n < |log| ==> starts[n] < |xs| && IsRowOf(log[n], xs[starts[n]])
  }

  lemma BeginsRunInPrefix(p: seq<Sample>, x: Sample, i: nat)
    requires i < |p|
    ensures BeginsRun(p + [x], i) <==> BeginsRun(p, i)
  {
  }

  lemma BeginningsOfOneMore(p: seq<Sample>, x: Sample, starts: seq<nat>)
    requires AreBeginnings(p, starts)
    ensures AreBeginnings(p + [x], if BeginsRun(p + [x], |p|) then starts + [|p|] else starts)
  {
    var xs := p + [x];
    var all := if BeginsRun(xs, |p|) then starts + [|p|] else starts;
    Sorting.PlacesWithLast(starts, |p|);
    forall i: nat | BeginsRun(xs, i)
      ensures i in all
    {
      if i < |p| {
        BeginsRunInPrefix(p, x, i);
      }
    }
    forall n | 0 <= n < |all|
      ensures BeginsRun(xs, all[n])
    {
      if n < |starts| {
        BeginsRunInPrefix(p, x, starts[n]);
      }
    }
  }

  lemma HoldsWithOneMore(log: seq<ProbeEvent>, p: seq<Sample>, x: Sample, starts: seq<nat>, e: ProbeEvent)
    requires HoldsSamples(log, p, starts) && IsRowOf(e, x)
    ensures HoldsSamples(log, p + [x], starts)
    ensures HoldsSamples(log + [e], p + [x], starts + [|p|])
  {
  }

  lemma {:induction false} CompressHoldsBeginnings(xs: seq<Sample>) returns (starts: seq<nat>)
    ensures AreBeginnings(xs, starts) && HoldsSamples(Compress(xs), xs, starts)
  {
    starts := [];
    if xs != [] {
      var p, x := xs[..|xs| - 1], xs[|xs| - 1];
      starts := CompressHoldsBeginnings(p);
      assert xs == p + [x];
      BeginningsOfOneMore(p, x, starts);
      HoldsWithOneMore(Compress(p), p, x, starts, EventOf(x));
      if RunStart(xs) == |p| {
        starts := starts + [|p|];
      }
    }
  }

  /**
    After any run of samples, the log of a target holds the first sample of each of its runs, with target, status,
    message and instant, in their order.
  */
  lemma LogHoldsRunBeginnings(samples: seq<Sample>, k: ProbeKey) returns (starts: seq<nat>)
    ensures AreBeginnings(SamplesOf(samples, k), starts)
    ensures HoldsSamples(EventsOf(Run(samples).events, k), SamplesOf(samples, k), starts)
  {
    LogIsRunLengthCompression(samples, k);
    starts := CompressHoldsBeginnings(SamplesOf(samples, k));
  }

  // ---- The state

  /**
    The state of a target is its current run, from sample c on: with status and start of the run, and the rest from
    sample m, which promoted the run or else is its first.
  */
  lemma StateHoldsCurrentRun(samples: seq<Sample>, k: ProbeKey) returns (c: nat, m: nat)
    requires k in Run(samples).states
    ensures var xs := SamplesOf(samples, k);
            && c <= m < |xs| && MaximalRun(xs, c, |xs|) && DescribedBy(xs, c, |xs|, m)
            && Run(samples).states[k] == ProbeState(xs[m].target, xs[c].status, xs[m].message, xs[c].at, xs[m].at,
                                                    PromotedAt(xs, c, |xs|, m))
  {
    var xs := SamplesOf(samples, k);
    LogIsRunLengthCompression(samples, k);
    c, m := RunStart(xs), Describer(xs);
  }
}

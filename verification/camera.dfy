/** The sequential logic of the Tilt Five camera diagnostic (camera.cpp): the
    helpers that wait for the service, the glasses and the wand, the error
    handling of the glasses session, and the pose-reading pass counters.
    Every library call is an oracle: its successive outcomes are a parameter. */
module Camera {
  import opened Outcomes
  import opened Polling
  import opened Histogram

  // ---------------------------------------------------------------------------
  // waitForService

  /** The only outcome waitForService retries on: the service is not reachable. */
  predicate NoServiceYet<T>(r: Result<T>)
  {
    r.Err? && r.error == NoService
  }

  /** waitForService retries on kNoService and hands back every other outcome unchanged. */
  function ServiceStep<T>(): Result<T> -> Step<T>
  {
    r => if NoServiceYet(r) then Retry else Stop(r)
  }

  /** Outcome `k` is the first one that is not kNoService. */
  predicate ServiceSettlesAt<T>(outs: seq<Result<T>>, k: nat)
  {
    k < |outs| && !NoServiceYet(outs[k]) && forall j :: 0 <= j < k ==> NoServiceYet(outs[j])
  }

  /** The progress text printed before sleep number `i` (from zero): the loop's
      flag makes only the first sleep announce the wait. */
  function ProgressMark(i: nat): string
  {
    if i == 0 then "Waiting for service..." else "."
  }

  /** waitForService over the successive outcomes `outs` of the wrapped query.
      `progress` is what the loop prints, one entry per sleep. */
  method WaitForService<T>(outs: seq<Result<T>>) returns (run: Run<T>, progress: seq<string>)
    ensures run == Poll(outs, ServiceStep())
    ensures forall k: nat :: ServiceSettlesAt(outs, k) ==> run == Returned(outs[k], k + 1, k)
    ensures |outs| > 0 && !NoServiceYet(outs[0]) ==> run == Returned(outs[0], 1, 0)
    ensures (forall j :: 0 <= j < |outs| ==> NoServiceYet(outs[j])) ==> run == Polling(|outs|, |outs|)
    ensures run.Returned? ==> !NoServiceYet(run.result)
    ensures |progress| == run.sleeps
    ensures forall i :: 0 <= i < |progress| ==> progress[i] == ProgressMark(i)
  {
    var waitingForService := false;
    progress := [];
    var i := 0;
    while i < |outs|
      invariant 0 <= i <= |outs|
      invariant forall j :: 0 <= j < i ==> NoServiceYet(outs[j])
      invariant waitingForService <==> i > 0
      invariant |progress| == i
      invariant forall j :: 0 <= j < i ==> progress[j] == ProgressMark(j)
    {
      var result := outs[i];
      if result.Ok? {
        assert SettlesAt(outs, ServiceStep(), i) && ServiceSettlesAt(outs, i);
        PollSettles(outs, ServiceStep(), i);
        return Returned(result, i + 1, i), progress;
      } else if result.error != NoService {
        assert SettlesAt(outs, ServiceStep(), i) && ServiceSettlesAt(outs, i);
        PollSettles(outs, ServiceStep(), i);
        return Returned(Err(result.error), i + 1, i), progress;
      }
      progress := progress + [if waitingForService then "." else "Waiting for service..."];
      waitingForService := true;
      i := i + 1;
    }
    assert NeverSettles(outs, ServiceStep());
    PollNeverSettles(outs, ServiceStep());
    run := Polling(|outs|, |outs|);
  }

  // ---------------------------------------------------------------------------
  // waitForGlasses and waitForWand

  /** A listing both helpers retry on: the query succeeded but found nothing. */
  predicate EmptyListing<Id>(l: Result<seq<Id>>)
  {
    l.Ok? && |l.value| == 0
  }

  /** Listing `k` is the first one that is an error or non-empty. */
  predicate ListingSettlesAt<Id>(listings: seq<Result<seq<Id>>>, k: nat)
  {
    k < |listings| && !EmptyListing(listings[k]) && forall j :: 0 <= j < k ==> EmptyListing(listings[j])
  }

  /** A listing error stops the loop with that error; a non-empty listing stops it
      with `pick` applied to its front element; an empty listing means retry. */
  function ListingStep<Id, G>(l: Result<seq<Id>>, pick: Id -> Result<G>): Step<G>
  {
    match l
    case Err(e) => Stop(Err(e))
    case Ok(ids) => if |ids| == 0 then Retry else Stop(pick(ids[0]))
  }

  /** One listGlasses call together with the obtainGlasses oracle in force at that
      moment: if this listing settles waitForGlasses, `obtain` gives the outcome of
      the obtainGlasses call that follows it. Every attempt carries its own
      oracle, so a later attempt on the same glasses may see another outcome. */
  datatype GlassesAttempt<!Id, G> = GlassesAttempt(listing: Result<seq<Id>>, obtain: Id -> Result<G>)

  /** Attempt `k` is the first one whose listing is an error or non-empty. */
  predicate GlassesSettleAt<Id, G>(attempts: seq<GlassesAttempt<Id, G>>, k: nat)
  {
    k < |attempts| && !EmptyListing(attempts[k].listing)
    && forall j :: 0 <= j < k ==> EmptyListing(attempts[j].listing)
  }

  /** What waitForGlasses returns for the attempt that settles it: the listing
      error, or obtainGlasses applied to the front of the list. */
  function SettledResult<Id, G>(a: GlassesAttempt<Id, G>): Result<G>
    requires !EmptyListing(a.listing)
  {
    if a.listing.Err? then Err(a.listing.error) else a.obtain(a.listing.value[0])
  }

  /** waitForGlasses hands the front of the listing to obtainGlasses. */
  function GlassesStep<Id, G>(): GlassesAttempt<Id, G> -> Step<G>
  {
    (a: GlassesAttempt<Id, G>) => ListingStep(a.listing, a.obtain)
  }

  /** What the reference loop over glasses attempts returns: a returned run
      settled at its last call, after one sleep per earlier attempt, with that
      attempt's result; a run still polling saw only empty listings. */
  lemma GlassesRunSettled<Id, G>(attempts: seq<GlassesAttempt<Id, G>>)
    ensures Poll(attempts, GlassesStep()).Returned? ==>
      var run := Poll(attempts, GlassesStep());
      run.calls >= 1 && run.sleeps == run.calls - 1 && GlassesSettleAt(attempts, run.calls - 1)
      && run.result == SettledResult(attempts[run.calls - 1])
    ensures Poll(attempts, GlassesStep()).Polling? ==>
      forall j :: 0 <= j < |attempts| ==> EmptyListing(attempts[j].listing)
  {
    SettlesOrNever(attempts, GlassesStep());
    if k: nat :| SettlesAt(attempts, GlassesStep(), k) {
      PollSettles(attempts, GlassesStep(), k);
      forall j | 0 <= j < k
        ensures EmptyListing(attempts[j].listing)
      {
        assert GlassesStep()(attempts[j]).Retry?;
      }
      assert GlassesStep()(attempts[k]).Stop?;
    } else {
      forall j | 0 <= j < |attempts|
        ensures EmptyListing(attempts[j].listing)
      {
        assert GlassesStep()(attempts[j]).Retry?;
      }
    }
  }

  /** waitForWand returns the front of the listing itself. */
  function WandStep<W>(): Result<seq<W>> -> Step<W>
  {
    l => ListingStep(l, w => Ok(w))
  }

  /** waitForGlasses over its successive listGlasses calls `attempts`. */
  method WaitForGlasses<Id, G>(attempts: seq<GlassesAttempt<Id, G>>) returns (run: Run<G>)
    ensures run == Poll(attempts, GlassesStep())
    ensures forall k: nat :: GlassesSettleAt(attempts, k) && attempts[k].listing.Err? ==>
      run == Returned(Err(attempts[k].listing.error), k + 1, k)
    ensures forall k: nat :: GlassesSettleAt(attempts, k) && attempts[k].listing.Ok? ==>
      |attempts[k].listing.value| > 0
      && run == Returned(attempts[k].obtain(attempts[k].listing.value[0]), k + 1, k)
    ensures (forall j :: 0 <= j < |attempts| ==> EmptyListing(attempts[j].listing)) ==>
      run == Polling(|attempts|, |attempts|)
    ensures run.Returned? ==> run.calls >= 1 && run.sleeps == run.calls - 1 && GlassesSettleAt(attempts, run.calls - 1)
    ensures run.Returned? ==> run.result == SettledResult(attempts[run.calls - 1])
    ensures run.Polling? ==> forall j :: 0 <= j < |attempts| ==> EmptyListing(attempts[j].listing)
  {
    if |attempts| == 0 {
      GlassesRunSettled(attempts);
      return Polling(0, 0);
    }
    var glassesList := attempts[0].listing;
    if glassesList.Err? {
      assert SettlesAt(attempts, GlassesStep(), 0) && GlassesSettleAt(attempts, 0);
      PollSettles(attempts, GlassesStep(), 0);
      GlassesRunSettled(attempts);
      return Returned(Err(glassesList.error), 1, 0);
    }
    var i := 0;
    while |glassesList.value| == 0
      invariant 0 <= i < |attempts|
      invariant glassesList == attempts[i].listing && glassesList.Ok?
      invariant forall j :: 0 <= j < i ==> EmptyListing(attempts[j].listing)
      decreases |attempts| - i
    {
      if i + 1 == |attempts| {
        assert NeverSettles(attempts, GlassesStep());
        PollNeverSettles(attempts, GlassesStep());
        GlassesRunSettled(attempts);
        return Polling(|attempts|, |attempts|);
      }
      i := i + 1;
      glassesList := attempts[i].listing;
      if glassesList.Err? {
        assert SettlesAt(attempts, GlassesStep(), i) && GlassesSettleAt(attempts, i);
        PollSettles(attempts, GlassesStep(), i);
        GlassesRunSettled(attempts);
        return Returned(Err(glassesList.error), i + 1, i);
      }
    }
    assert SettlesAt(attempts, GlassesStep(), i) && GlassesSettleAt(attempts, i);
    PollSettles(attempts, GlassesStep(), i);
    GlassesRunSettled(attempts);
    run := Returned(attempts[i].obtain(glassesList.value[0]), i + 1, i);
  }

  /** waitForWand over the successive results `listings` of listWands. */
  method WaitForWand<W>(listings: seq<Result<seq<W>>>) returns (run: Run<W>)
    ensures run == Poll(listings, WandStep())
    ensures forall k: nat :: ListingSettlesAt(listings, k) ==>
      run == Returned(if listings[k].Err? then Err(listings[k].error) else Ok(listings[k].value[0]), k + 1, k)
    ensures (forall j :: 0 <= j < |listings| ==> EmptyListing(listings[j])) ==>
      run == Polling(|listings|, |listings|)
  {
    var i := 0;
    while i < |listings|
      invariant 0 <= i <= |listings|
      invariant forall j :: 0 <= j < i ==> EmptyListing(listings[j])
    {
      var wands := listings[i];
      if wands.Ok? {
        if |wands.value| != 0 {
          assert SettlesAt(listings, WandStep(), i) && ListingSettlesAt(listings, i);
          PollSettles(listings, WandStep(), i);
          return Returned(Ok(wands.value[0]), i + 1, i);
        }
      } else {
        assert SettlesAt(listings, WandStep(), i) && ListingSettlesAt(listings, i);
        PollSettles(listings, WandStep(), i);
        return Returned(Err(wands.error), i + 1, i);
      }
      i := i + 1;
    }
    assert NeverSettles(listings, WandStep());
    PollNeverSettles(listings, WandStep());
    run := Polling(|listings|, |listings|);
  }

  // ---------------------------------------------------------------------------
  // waitForService wrapped around waitForGlasses

  /** The step of the nested loop main runs to find glasses: listGlasses results are
      classified by waitForGlasses, and a kNoService that waitForGlasses hands back
      (from listGlasses or from obtainGlasses) is retried by waitForService. */
  function ServiceGlassesStep<Id, G>(): GlassesAttempt<Id, G> -> Step<G>
  {
    (a: GlassesAttempt<Id, G>) => match ListingStep(a.listing, a.obtain)
         case Retry => Retry
         case Stop(r) => ServiceStep()(r)
  }

  /** `waitForService<Glasses>(client, waitForGlasses)`: every call of waitForGlasses
      consumes attempts until one settles it, and makes its own obtainGlasses call;
      a kNoService result starts a fresh call after one sleep. The nested loops
      behave as one polling loop over the attempts, with one sleep per retried
      attempt. */
  method WaitForServiceGlasses<Id, G>(attempts: seq<GlassesAttempt<Id, G>>) returns (run: Run<G>)
    ensures run == Poll(attempts, ServiceGlassesStep())
    ensures forall k: nat :: SettlesAt(attempts, ServiceGlassesStep(), k) ==>
      !EmptyListing(attempts[k].listing) && run == Returned(SettledResult(attempts[k]), k + 1, k)
    ensures run.Returned? ==> !NoServiceYet(run.result)
  {
    var pos := 0;
    while pos < |attempts|
      invariant 0 <= pos <= |attempts|
      invariant forall j :: 0 <= j < pos ==> ServiceGlassesStep()(attempts[j]).Retry?
      decreases |attempts| - pos
    {
      var inner := WaitForGlasses(attempts[pos..]);
      if inner.Polling? {
        NestedAllEmpty(attempts, pos);
        PollNeverSettles(attempts, ServiceGlassesStep());
        return Polling(|attempts|, |attempts|);
      }
      var k := inner.calls - 1;
      NestedSettle(attempts, pos, k);
      assert attempts[pos..][k] == attempts[pos + k];
      var step := ServiceStep()(inner.result);
      assert ServiceGlassesStep()(attempts[pos + k]) == step;
      if step.Stop? {
        assert SettlesAt(attempts, ServiceGlassesStep(), pos + k);
        PollSettles(attempts, ServiceGlassesStep(), pos + k);
        forall k': nat | SettlesAt(attempts, ServiceGlassesStep(), k')
          ensures !EmptyListing(attempts[k'].listing)
          ensures Poll(attempts, ServiceGlassesStep()) == Returned(SettledResult(attempts[k']), k' + 1, k')
        {
          NestedSettledResult(attempts, k');
        }
        return Returned(inner.result, pos + inner.calls, pos + inner.sleeps);
      }
      pos := pos + inner.calls;
    }
    assert NeverSettles(attempts, ServiceGlassesStep());
    PollNeverSettles(attempts, ServiceGlassesStep());
    run := Polling(|attempts|, |attempts|);
  }

  /** The nested loop retries on every empty listing, and otherwise on a
      kNoService from the attempt's own listing or obtainGlasses call. */
  lemma NestedRetriesEmpty<Id, G>(a: GlassesAttempt<Id, G>)
    ensures EmptyListing(a.listing) <==> ListingStep(a.listing, a.obtain).Retry?
    ensures ServiceGlassesStep()(a) ==
      if EmptyListing(a.listing) then Retry else ServiceStep()(SettledResult(a))
  {
  }

  /** One call of waitForGlasses that settles at attempt `pos + k` leaves the nested
      loop retrying on every attempt before it. */
  lemma NestedSettle<Id, G>(attempts: seq<GlassesAttempt<Id, G>>, pos: nat, k: nat)
    requires pos <= |attempts|
    requires forall j :: 0 <= j < pos ==> ServiceGlassesStep()(attempts[j]).Retry?
    requires GlassesSettleAt(attempts[pos..], k)
    ensures pos + k < |attempts|
    ensures forall j :: 0 <= j < pos + k ==> ServiceGlassesStep()(attempts[j]).Retry?
    ensures ServiceGlassesStep()(attempts[pos + k]) == ServiceStep()(SettledResult(attempts[pos + k]))
  {
    forall j | pos <= j < pos + k
      ensures ServiceGlassesStep()(attempts[j]).Retry?
    {
      assert attempts[pos..][j - pos] == attempts[j];
      NestedRetriesEmpty(attempts[j]);
    }
    assert attempts[pos..][k] == attempts[pos + k];
    NestedRetriesEmpty(attempts[pos + k]);
  }

  /** A call of waitForGlasses that runs out of attempts leaves the nested loop
      retrying on every attempt. */
  lemma NestedAllEmpty<Id, G>(attempts: seq<GlassesAttempt<Id, G>>, pos: nat)
    requires pos <= |attempts|
    requires forall j :: 0 <= j < pos ==> ServiceGlassesStep()(attempts[j]).Retry?
    requires forall j :: 0 <= j < |attempts[pos..]| ==> EmptyListing(attempts[pos..][j].listing)
    ensures NeverSettles(attempts, ServiceGlassesStep())
  {
    forall j | pos <= j < |attempts|
      ensures ServiceGlassesStep()(attempts[j]).Retry?
    {
      assert attempts[pos..][j - pos] == attempts[j];
      NestedRetriesEmpty(attempts[j]);
    }
  }

  /** The attempt that settles the nested loop has a non-empty listing or a
      listing error, and what the loop returns is that attempt's own result. */
  lemma NestedSettledResult<Id, G>(attempts: seq<GlassesAttempt<Id, G>>, k: nat)
    requires SettlesAt(attempts, ServiceGlassesStep(), k)
    ensures !EmptyListing(attempts[k].listing)
    ensures Poll(attempts, ServiceGlassesStep()) == Returned(SettledResult(attempts[k]), k + 1, k)
  {
    NestedRetriesEmpty(attempts[k]);
    PollSettles(attempts, ServiceGlassesStep(), k);
  }

  /** A kNoService from obtainGlasses does not end the nested loop: the next
      attempt lists the same glasses and calls obtainGlasses afresh, and that call
      may succeed. */
  lemma ObtainRetriedAfterNoService()
    ensures Poll([GlassesAttempt(Ok([5]), (id: int) => Err(NoService)),
                  GlassesAttempt(Ok([5]), (id: int) => if id == 5 then Ok(7) else Err(NotConnected))],
                 ServiceGlassesStep()) == Returned(Ok(7), 2, 1)
  {
    var attempts: seq<GlassesAttempt<int, int>> := [GlassesAttempt(Ok([5]), (id: int) => Err(NoService)),
                     GlassesAttempt(Ok([5]), (id: int) => if id == 5 then Ok(7) else Err(NotConnected))];
    NestedRetriesEmpty(attempts[0]);
    NestedRetriesEmpty(attempts[1]);
    assert attempts[0].obtain(5) == Err(NoService) && attempts[1].obtain(5) == Ok(7);
    assert SettlesAt(attempts, ServiceGlassesStep(), 1);
    PollSettles(attempts, ServiceGlassesStep(), 1);
  }

  // ---------------------------------------------------------------------------
  // readPoses

  /** What one call of readPoses leaves behind besides its result: the pass
      counter, the number of passes that delivered a camera image, the
      `errorCodeCount` histogram, the pass whose image was saved to
      camera-frame.png, and whether the image buffer was cancelled at the end. */
  datatype PoseStats = PoseStats(
    count: nat,
    successCount: nat,
    errorCodeCount: map<Status, nat>,
    savedFrame: Option<nat>,
    cancelled: bool)

  /** The error codes of a sequence of image reads, in order. */
  function Statuses(outcomes: seq<Result<()>>): (codes: seq<Status>)
    ensures |codes| == |outcomes|
    ensures forall i :: 0 <= i < |outcomes| ==> codes[i] == StatusOf(outcomes[i])
  {
    seq(|outcomes|, i requires 0 <= i < |outcomes| => StatusOf(outcomes[i]))
  }

  /** The pass loop of readPoses over the outcomes `imageReads` of
      getFilledCamImageBuffer, one per pass of the 20-second window. Every pass
      bumps the pass counter and exactly one histogram entry, so the histogram
      always sums to the pass count. */
  method PosePasses(imageReads: seq<Result<()>>) returns (stats: PoseStats)
    ensures stats.count == |imageReads|
    ensures stats.errorCodeCount == Tally(Statuses(imageReads))
    ensures Total(stats.errorCodeCount) == stats.count
    ensures stats.successCount == Occurrences(Statuses(imageReads), Clear)
    ensures stats.successCount <= stats.count
    ensures stats.savedFrame.Some? ==>
      && stats.savedFrame.value < |imageReads|
      && imageReads[stats.savedFrame.value].Ok?
      && forall j :: 0 <= j < stats.savedFrame.value ==> imageReads[j].Err?
    ensures stats.savedFrame.None? <==> stats.successCount == 0
    ensures stats.cancelled <==> stats.successCount > 0
  {
    var count := 0;
    var successCount := 0;
    var errorCodeCount: map<Status, nat> := map[];
    var savedFrame: Option<nat> := None;
    ghost var codes := Statuses(imageReads);
    while count < |imageReads|
      invariant 0 <= count <= |imageReads|
      invariant errorCodeCount == Tally(codes[..count])
      invariant successCount == Occurrences(codes[..count], Clear)
      invariant successCount <= count
      invariant savedFrame.None? <==> successCount == 0
      invariant savedFrame.Some? ==>
        && savedFrame.value < count
        && imageReads[savedFrame.value].Ok?
        && forall j :: 0 <= j < savedFrame.value ==> imageReads[j].Err?
      invariant savedFrame.None? ==> forall j :: 0 <= j < count ==> imageReads[j].Err?
    {
      var imageRead := imageReads[count];
      TallyStep(codes, count);
      assert codes[count] == StatusOf(imageRead);
      errorCodeCount := Bump(errorCodeCount, StatusOf(imageRead));
      if imageRead.Ok? {
        successCount := successCount + 1;
        if successCount == 1 {
          savedFrame := Some(count);
        }
      }
      count := count + 1;
    }
    assert codes[..count] == codes;
    TallyTotal(codes);
    stats := PoseStats(count, successCount, errorCodeCount, savedFrame, successCount > 0);
  }

  /** readPoses: `ready` is the outcome of ensureReady. Glasses that are not ready
      end the call with that error before any pass; otherwise the passes run and
      the call succeeds whatever the image reads returned. */
  method ReadPoses(ready: Result<()>, imageReads: seq<Result<()>>) returns (r: Result<()>, stats: PoseStats)
    ensures ready.Err? ==> r == ready && stats == PoseStats(0, 0, map[], None, false)
    ensures ready.Ok? ==> r == Ok(())
    ensures ready.Ok? ==> stats.count == |imageReads| && stats.errorCodeCount == Tally(Statuses(imageReads))
    ensures ready.Ok? ==> stats.successCount == Occurrences(Statuses(imageReads), Clear)
    ensures Total(stats.errorCodeCount) == stats.count
  {
    if ready.Err? {
      var none: map<Status, nat> := map[];
      assert Total(none) == 0;
      return ready, PoseStats(0, 0, none, None, false);
    }
    r := Ok(());
    stats := PosePasses(imageReads);
  }

  // ---------------------------------------------------------------------------
  // doThingsWithGlasses

  /** What the program makes of a user setting read from the glasses. */
  datatype SettingReport<+V> = Obtained(value: V) | NotSet | ReadFailed(error: Error)

  function ReportSetting<V>(r: Result<V>): SettingReport<V>
  {
    match r
    case Ok(v) => Obtained(v)
    case Err(e) => if e == SettingUnknown then NotSet else ReadFailed(e)
  }

  /** The settings phase of doThingsWithGlasses: Ok to carry on, or the error the
      session returns. A missing IPD is tolerated, any other IPD error aborts;
      the friendly name is only reported, so it is not an input here. */
  function CheckSettings<V>(ipd: Result<V>): (r: Result<()>)
    ensures r.Ok? <==> ipd.Ok? || ipd.error == SettingUnknown
    ensures r.Err? ==> r.error == ipd.error
  {
    match ReportSetting(ipd)
    case ReadFailed(e) => Err(e)
    case _ => Ok(())
  }

  /** The library outcomes one glasses session sees, in call order: getFriendlyName,
      getIpd, awaitConnection, the first readPoses, release, and the readPoses
      after release. */
  datatype GlassesOracle<+N, +V> = GlassesOracle(
    friendlyName: Result<N>,
    ipd: Result<V>,
    connection: Result<()>,
    firstRead: Result<()>,
    release: Result<()>,
    secondRead: Result<()>)

  /** How the pose read after release turned out: not reached, the expected
      kNotConnected, an unexpected success, or an unexpected error. */
  datatype ReleaseCheck = NotReached | AsExpected | ReadSucceeded | UnexpectedError(error: Error)

  datatype GlassesSession<+N, +V> = GlassesSession(
    result: Result<()>,
    friendlyName: SettingReport<N>,
    ipd: SettingReport<V>,
    releaseCheck: ReleaseCheck)

  /** The outcome of a chain of steps run one after another that stops at the
      first error: Ok when every step succeeds, otherwise that first error. */
  function FirstFailure(steps: seq<Result<()>>): (r: Result<()>)
    ensures r.Ok? <==> forall i :: 0 <= i < |steps| ==> steps[i].Ok?
    ensures r.Ok? ==> r == Ok(())
    ensures r.Err? ==> exists i :: 0 <= i < |steps| && steps[i] == r && forall j :: 0 <= j < i ==> steps[j].Ok?
  {
    if |steps| == 0 then Ok(())
    else if steps[0].Err? then steps[0]
    else
      var rest := FirstFailure(steps[1..]);
      assert rest.Err? ==> exists i :: 1 <= i < |steps| && steps[i] == rest && forall j :: 0 <= j < i ==> steps[j].Ok?
      by {
        if rest.Err? {
          var i :| 0 <= i < |steps[1..]| && steps[1..][i] == rest && forall j :: 0 <= j < i ==> steps[1..][j].Ok?;
          assert steps[i + 1] == rest;
        }
      }
      rest
  }

  /** A chain whose step `i` is the first to fail ends with that step's error. */
  lemma FailsFirstAt(steps: seq<Result<()>>, i: nat)
    requires i < |steps| && steps[i].Err?
    requires forall j :: 0 <= j < i ==> steps[j].Ok?
    ensures FirstFailure(steps) == steps[i]
  {
  }

  /** doThingsWithGlasses: the session stops at the first failing step among the
      settings check, the connection, the first pose read and the release, and
      returns that error; the pose read after release is only reported. */
  function DoThingsWithGlasses<N, V>(o: GlassesOracle<N, V>): (s: GlassesSession<N, V>)
    ensures s.result == FirstFailure([CheckSettings(o.ipd), o.connection, o.firstRead, o.release])
    ensures s.releaseCheck.NotReached? <==> s.result.Err?
    ensures s.result.Ok? ==> (s.releaseCheck == AsExpected <==> o.secondRead == Err(NotConnected))
    ensures s.result.Ok? ==> (s.releaseCheck == ReadSucceeded <==> o.secondRead.Ok?)
    ensures s.result.Ok? && o.secondRead.Err? && o.secondRead.error != NotConnected ==>
      s.releaseCheck == UnexpectedError(o.secondRead.error)
    ensures s.friendlyName == ReportSetting(o.friendlyName) && s.ipd == ReportSetting(o.ipd)
  {
    var name := ReportSetting(o.friendlyName);
    var ipd := ReportSetting(o.ipd);
    var steps := [CheckSettings(o.ipd), o.connection, o.firstRead, o.release];
    if ipd.ReadFailed? then
      FailsFirstAt(steps, 0);
      GlassesSession(Err(ipd.error), name, ipd, NotReached)
    else if o.connection.Err? then
      FailsFirstAt(steps, 1);
      GlassesSession(o.connection, name, ipd, NotReached)
    else if o.firstRead.Err? then
      FailsFirstAt(steps, 2);
      GlassesSession(o.firstRead, name, ipd, NotReached)
    else if o.release.Err? then
      FailsFirstAt(steps, 3);
      GlassesSession(o.release, name, ipd, NotReached)
    else
      var check :=
        if o.secondRead.Ok? then ReadSucceeded
        else if o.secondRead.error != NotConnected then UnexpectedError(o.secondRead.error)
        else AsExpected;
      assert steps[0].Ok? && steps[1].Ok? && steps[2].Ok? && steps[3].Ok?;
      GlassesSession(Ok(()), name, ipd, check)
  }

  /** Whatever getFriendlyName returns, the session ends with the same result and
      the same check of the read after release: the name is only reported. */
  lemma FriendlyNameNeverAborts<N, V>(o: GlassesOracle<N, V>, name: Result<N>)
    ensures DoThingsWithGlasses(o.(friendlyName := name)).result == DoThingsWithGlasses(o).result
    ensures DoThingsWithGlasses(o.(friendlyName := name)).releaseCheck == DoThingsWithGlasses(o).releaseCheck
  {
  }
}
